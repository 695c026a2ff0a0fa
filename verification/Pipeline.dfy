/** The outgoing pipeline: internal/shred/engine.go (`Process`), shaper.go and
    fragmentor.go. A packet is masked, cut into bursts, and each burst into fragments. */
module Pipeline {
  import opened Bytes
  import opened Masks
  import opened MaskPackets
  import opened MaskMixerClass
  import Model = MixerModel

  const ROTATION_PERIOD := 30_000_000_000

  /** How a loop over the rest of some data ends: when there is no more; not in the
      turns allowed, or never; or in a panic. */
  datatype Ending = Finished | Unfinished | Panics

  /** Full sizes of the parts of a cut: one size for all, or one drawn for each part
      from the readings of `time.Now().UnixNano()`. */
  datatype Sizes = Fixed(n: int) | Drawn(min: int, max: int, nanos: nat -> nat)

  function SizeAt(z: Sizes, i: nat): int {
    match z
    case Fixed(n) => n
    case Drawn(min, max, nanos) => if max > min then min + nanos(i) % (max - min) else min
  }

  /** The parts make up the whole, in order; each but the last has its full size, and
      the last has at most that. */
  ghost predicate Cuts(parts: seq<seq<byte>>, whole: seq<byte>, z: Sizes) {
    && Flatten(parts) == whole
    && forall i :: 0 <= i < |parts| ==>
         if i < |parts| - 1 then |parts[i]| == SizeAt(z, i) else 1 <= |parts[i]| <= SizeAt(z, i)
  }

  /** A cut under way: all parts are full until the one that empties the rest. */
  ghost predicate Cutting(parts: seq<seq<byte>>, remaining: seq<byte>, whole: seq<byte>, z: Sizes) {
    && Flatten(parts) + remaining == whole
    && (remaining == [] ==> Cuts(parts, whole, z))
    && (remaining != [] ==> forall i :: 0 <= i < |parts| ==> |parts[i]| == SizeAt(z, i))
  }

  lemma CutOne(parts: seq<seq<byte>>, remaining: seq<byte>, whole: seq<byte>, z: Sizes, n: nat)
    requires Cutting(parts, remaining, whole, z) && remaining != []
    requires SizeAt(z, |parts|) >= 0
    requires n == if SizeAt(z, |parts|) > |remaining| then |remaining| else SizeAt(z, |parts|)
    ensures Cutting(parts + [remaining[..n]], remaining[n..], whole, z)
  {
    FlattenPush(parts, remaining[..n]);
    assert remaining == remaining[..n] + remaining[n..];
    assert Flatten(parts + [remaining[..n]]) + remaining[n..] == whole;
    if remaining[n..] == [] {
      assert remaining[..n] == remaining;
    }
  }

  class TrafficShaper {
    const minBurst: int
    const maxBurst: int

    constructor (minBurst: int, maxBurst: int)
      ensures this.minBurst == minBurst && this.maxBurst == maxBurst
    {
      this.minBurst, this.maxBurst := minBurst, maxBurst;
    }

    /** `nanos(i)` is the i-th clock reading. With a minimum that is not positive the
        loop may go on for ever; it is followed for `turns` turns then. */
    method Process(data: seq<byte>, nanos: nat -> nat, turns: nat) returns (bursts: seq<seq<byte>>, end: Ending)
      ensures end.Finished? ==> Cuts(bursts, data, Drawn(minBurst, maxBurst, nanos))
      ensures end.Panics? ==> data != [] && SizeAt(Drawn(minBurst, maxBurst, nanos), |bursts|) < 0
      ensures end.Unfinished? ==> |bursts| >= turns && Flatten(bursts) < data
      ensures end.Finished? ==>
                && Flatten(bursts) == data
                && (forall i :: 0 <= i < |bursts| - 1 ==>
                      |bursts[i]| ==
                      if maxBurst > minBurst then minBurst + nanos(i) % (maxBurst - minBurst) else minBurst)
      ensures minBurst > 0 ==> end.Finished?
      ensures minBurst == 0 >= maxBurst && data != [] ==> end.Unfinished?
    {
      ghost var z := Drawn(minBurst, maxBurst, nanos);
      bursts := [];
      var remaining := data;
      while |remaining| > 0 && (minBurst > 0 || |bursts| < turns)
        invariant Cutting(bursts, remaining, data, z)
        invariant minBurst == 0 >= maxBurst ==> remaining == data
        decreases |remaining|, turns - |bursts|
      {
        var burstSize := minBurst;
        if maxBurst > minBurst {
          burstSize := minBurst + nanos(|bursts|) % (maxBurst - minBurst);
        }
        if burstSize > |remaining| {
          burstSize := |remaining|;
        }
        if burstSize < 0 {
          return bursts, Panics;
        }
        CutOne(bursts, remaining, data, z, burstSize);
        bursts := bursts + [remaining[..burstSize]];
        remaining := remaining[burstSize..];
      }
      end := if |remaining| == 0 then Finished else Unfinished;
    }
  }

  /** Go's remainder of a number that is not negative. */
  function Remainder(n: nat, d: int): nat
    requires d != 0
  {
    n % if d > 0 then d else -d
  }

  class Fragmentor {
    const minSize: int
    const maxSize: int
    var currentSize: int
    var lastRotation: int

    /** The zero time lies further back than any clock reading reaches. */
    constructor (minSize: int, maxSize: int, zeroTime: int)
      ensures this.minSize == minSize && this.maxSize == maxSize && currentSize == minSize && lastRotation == zeroTime
    {
      this.minSize, this.maxSize, currentSize, lastRotation := minSize, maxSize, minSize, zeroTime;
    }

    /** Configured as the defaults are. */
    predicate Sound()
      reads this
    {
      0 < minSize < maxSize && minSize <= currentSize < maxSize
    }

    predicate IsDue(now: int)
      reads this
    {
      now - lastRotation > ROTATION_PERIOD
    }

    /** Equal sizes divide by zero. */
    method RotateIfNeeded(now: int, nanos: nat) returns (ok: bool)
      modifies this
      ensures ok <==> !(old(IsDue(now)) && minSize == maxSize)
      ensures ok && old(IsDue(now)) ==>
                lastRotation == now && currentSize == minSize + Remainder(nanos, maxSize - minSize)
      ensures now - old(lastRotation) > 30_000_000_000 && minSize < maxSize ==>
                lastRotation == now && currentSize == minSize + nanos % (maxSize - minSize)
      ensures now - old(lastRotation) <= 30_000_000_000 ==>
                ok && lastRotation == old(lastRotation) && currentSize == old(currentSize)
      ensures !ok || !old(IsDue(now)) ==> lastRotation == old(lastRotation) && currentSize == old(currentSize)
      ensures old(Sound()) ==> ok && Sound()
    {
      if now - lastRotation > ROTATION_PERIOD {
        if maxSize - minSize == 0 {
          return false;
        }
        currentSize := minSize + Remainder(nanos, maxSize - minSize);
        lastRotation := now;
      }
      return true;
    }

    /** A size of zero keeps the loop going for ever, a negative one panics. */
    method Fragment(data: seq<byte>, now: int, nanos: nat) returns (fragments: seq<seq<byte>>, end: Ending)
      modifies this
      ensures end.Finished? ==> Cuts(fragments, data, Fixed(currentSize))
      ensures end.Finished? ==>
                Flatten(fragments) == data && forall i :: 0 <= i < |fragments| - 1 ==> |fragments[i]| == currentSize
      ensures !end.Finished? ==> fragments == []
      ensures end.Unfinished? <==>
                !(old(IsDue(now)) && minSize == maxSize) && data != [] && currentSize == 0
      ensures end.Panics? <==>
                (old(IsDue(now)) && minSize == maxSize) || (data != [] && currentSize < 0)
      ensures !old(IsDue(now)) ==> currentSize == old(currentSize)
      ensures old(IsDue(now)) && minSize != maxSize ==> currentSize == minSize + Remainder(nanos, maxSize - minSize)
      ensures old(Sound()) ==> end.Finished? && Sound()
    {
      var ok := RotateIfNeeded(now, nanos);
      if !ok {
        return [], Panics;
      }
      var size := currentSize;
      if |data| > 0 && size <= 0 {
        return [], if size == 0 then Unfinished else Panics;
      }
      fragments := [];
      var remaining := data;
      ghost var rotated := lastRotation;
      while |remaining| > 0
        invariant currentSize == size && lastRotation == rotated
        invariant Cutting(fragments, remaining, data, Fixed(size))
        decreases |remaining|
      {
        var n := if size > |remaining| then |remaining| else size;
        CutOne(fragments, remaining, data, Fixed(size), n);
        fragments := fragments + [remaining[..n]];
        remaining := remaining[n..];
      }
      end := Finished;
    }
  }

  function Join(groups: seq<seq<seq<byte>>>): seq<seq<byte>> {
    if groups == [] then [] else Join(groups[..|groups| - 1]) + groups[|groups| - 1]
  }

  lemma JoinPush(groups: seq<seq<seq<byte>>>, g: seq<seq<byte>>)
    ensures Join(groups + [g]) == Join(groups) + g
    ensures Flatten(Join(groups + [g])) == Flatten(Join(groups)) + Flatten(g)
  {
    assert (groups + [g])[..|groups|] == groups;
    FlattenAppend(Join(groups), g);
  }

  lemma WrittenPush(before: seq<seq<byte>>, groups: seq<seq<seq<byte>>>, g: seq<seq<byte>>)
    ensures before + Join(groups) + g == before + Join(groups + [g])
    ensures Flatten(Join(groups + [g])) == Flatten(Join(groups)) + Flatten(g)
  {
    hide Join, Flatten;
    JoinPush(groups, g);
  }

  lemma FlattenTake(parts: seq<seq<byte>>, n: nat)
    requires n <= |parts|
    ensures Flatten(parts[..n]) <= Flatten(parts)
  {
    FlattenAppend(parts[..n], parts[n..]);
    assert parts[..n] + parts[n..] == parts;
  }

  datatype Option<T> = None | Some(value: T)

  /** Fragments of each burst, all but the last of a burst of the one size of its group. */
  ghost predicate Fragmented(groups: seq<seq<seq<byte>>>, sizes: seq<int>, bursts: seq<seq<byte>>) {
    && |groups| == |sizes| == |bursts|
    && forall i :: 0 <= i < |groups| ==> Cuts(groups[i], bursts[i], Fixed(sizes[i]))
  }

  lemma FragmentedPush(groups: seq<seq<seq<byte>>>, sizes: seq<int>, bursts: seq<seq<byte>>,
                       fragments: seq<seq<byte>>, size: int, burst: seq<byte>)
    requires Fragmented(groups, sizes, bursts)
    requires Cuts(fragments, burst, Fixed(size))
    ensures Fragmented(groups + [fragments], sizes + [size], bursts + [burst])
  {}

  /** Written since `before`: fragments of all of `bursts`. */
  ghost predicate Sent(before: seq<seq<byte>>, written: seq<seq<byte>>, groups: seq<seq<seq<byte>>>,
                       sizes: seq<int>, bursts: seq<seq<byte>>) {
    && Fragmented(groups, sizes, bursts)
    && written == before + Join(groups)
    && Flatten(Join(groups)) == Flatten(bursts)
  }

  lemma NothingSent(before: seq<seq<byte>>, bursts: seq<seq<byte>>)
    ensures Sent(before, before, [], [], bursts[..0])
  {
    assert before + [] == before;
  }

  lemma SendOne(before: seq<seq<byte>>, written: seq<seq<byte>>, groups: seq<seq<seq<byte>>>, sizes: seq<int>,
                bursts: seq<seq<byte>>, i: nat, fragments: seq<seq<byte>>, size: int)
    requires i < |bursts| && Sent(before, written, groups, sizes, bursts[..i])
    requires Cuts(fragments, bursts[i], Fixed(size))
    ensures Sent(before, written + fragments, groups + [fragments], sizes + [size], bursts[..i + 1])
  {
    assert bursts[..i + 1] == bursts[..i] + [bursts[i]];
    FragmentedPush(groups, sizes, bursts[..i], fragments, size, bursts[i]);
    assert Flatten(fragments) == bursts[i];
    hide Fragmented, Flatten, Cuts, Join;
    WrittenPush(before, groups, fragments);
    FlattenPush(bursts[..i], bursts[i]);
  }

  lemma SentPart(before: seq<seq<byte>>, written: seq<seq<byte>>, groups: seq<seq<seq<byte>>>, sizes: seq<int>,
                 bursts: seq<seq<byte>>, i: nat)
    requires i <= |bursts| && Sent(before, written, groups, sizes, bursts[..i])
    ensures written == before + Join(groups)
    ensures Flatten(before) <= Flatten(written) <= Flatten(before) + Flatten(bursts)
    ensures i == |bursts| ==>
              Fragmented(groups, sizes, bursts) && Flatten(written) == Flatten(before) + Flatten(bursts)
  {
    FlattenAppend(before, Join(groups));
    FlattenTake(bursts, i);
    assert i == |bursts| ==> bursts[..i] == bursts;
  }

  ghost predicate Within(sizes: seq<int>, min: int, max: int) {
    forall i :: 0 <= i < |sizes| ==> min <= sizes[i] < max
  }

  /** How one packet went out: its bursts, and for each burst whose turn came the
      fragments written and their size. */
  datatype Emission = Emission(bursts: seq<seq<byte>>, groups: seq<seq<seq<byte>>>, sizes: seq<int>)

  function Pieces(emissions: seq<Emission>): seq<seq<byte>> {
    if emissions == [] then [] else Pieces(emissions[..|emissions| - 1]) + Join(emissions[|emissions| - 1].groups)
  }

  /** `clocks`: the readings the shaper and the fragmentor draw from, and the time of
      each burst; `turns`: how long to follow a shaper that makes no progress. */
  datatype Clocks = Clocks(burst: nat -> nat, fragment: nat -> nat, time: nat -> int, turns: nat)

  /** `packet` may be what a mixer on `mode`, if there is one, makes of `data`. */
  predicate Masked(mode: Option<int>, data: seq<byte>, packet: seq<byte>) {
    if mode.None? then packet == data else
      var kind := KindOf(if TlsLike(data) then Model.BROWSER_MODE else mode.value);
      kind in CARRYING && |data| < WORD ==> UnwrapBy(kind, packet) == Payload(data)
  }

  /** All of `packet` went out: every burst but the last of the size drawn for it, every
      fragment but the last of a burst of one size. */
  ghost predicate Emits(m: Emission, packet: seq<byte>, z: Sizes) {
    Cuts(m.bursts, packet, z) && Fragmented(m.groups, m.sizes, m.bursts)
  }

  /** Written since `before`: the packets, in order, the i-th shaped to `z(i)`; only the
      last may be cut short, and none when `whole`. Each carries its input. */
  ghost predicate Sends(before: seq<seq<byte>>, written: seq<seq<byte>>, inputs: seq<seq<byte>>,
                        packets: seq<seq<byte>>, emissions: seq<Emission>, z: nat -> Sizes, mode: Option<int>,
                        whole: bool) {
    && |emissions| == |packets| <= |inputs|
    && written == before + Pieces(emissions)
    && Flatten(before) <= Flatten(written) <= Flatten(before) + Flatten(packets)
    && (whole ==> Flatten(written) == Flatten(before) + Flatten(packets))
    && (forall i :: 0 <= i < |packets| && (whole || i < |packets| - 1) ==> Emits(emissions[i], packets[i], z(i)))
    && (forall i :: 0 <= i < |packets| ==> Masked(mode, inputs[i], packets[i]))
  }

  lemma PiecesPush(before: seq<seq<byte>>, emissions: seq<Emission>, m: Emission)
    ensures before + Pieces(emissions) + Join(m.groups) == before + Pieces(emissions + [m])
  {
    assert (emissions + [m])[..|emissions|] == emissions;
  }

  lemma OneMore(before: seq<byte>, packets: seq<seq<byte>>, written: seq<byte>, packet: seq<byte>)
    requires before + Flatten(packets) <= written <= before + Flatten(packets) + packet
    ensures before <= written <= before + Flatten(packets + [packet])
    ensures written == before + Flatten(packets) + packet ==> written == before + Flatten(packets + [packet])
  {
    FlattenPush(packets, packet);
    assert before <= before + Flatten(packets);
    assert before + Flatten(packets + [packet]) == before + Flatten(packets) + packet;
  }

  lemma SendsNothing(before: seq<seq<byte>>, inputs: seq<seq<byte>>, z: nat -> Sizes, mode: Option<int>)
    ensures Sends(before, before, inputs, [], [], z, mode, true)
  {
    assert before + [] == before && Flatten(before) + [] == Flatten(before);
  }

  lemma SendsWhole(before: seq<seq<byte>>, written: seq<seq<byte>>, inputs: seq<seq<byte>>,
                   packets: seq<seq<byte>>, emissions: seq<Emission>, z: nat -> Sizes, mode: Option<int>, whole: bool)
    requires Sends(before, written, inputs, packets, emissions, z, mode, true)
    ensures Sends(before, written, inputs, packets, emissions, z, mode, whole)
  {}

  lemma SendsOneMore(before: seq<seq<byte>>, written: seq<seq<byte>>, inputs: seq<seq<byte>>,
                     packets: seq<seq<byte>>, emissions: seq<Emission>, z: nat -> Sizes, mode: Option<int>,
                     now: seq<seq<byte>>, packet: seq<byte>, m: Emission, whole: bool)
    requires Sends(before, written, inputs, packets, emissions, z, mode, true) && |packets| < |inputs|
    requires now == written + Join(m.groups) && Masked(mode, inputs[|packets|], packet)
    requires Flatten(written) <= Flatten(now) <= Flatten(written) + packet
    requires whole ==> Emits(m, packet, z(|packets|)) && Flatten(now) == Flatten(written) + packet
    ensures Sends(before, now, inputs, packets + [packet], emissions + [m], z, mode, whole)
  {
    hide Emits, Flatten, Pieces, Join, Masked;
    PiecesPush(before, emissions, m);
    OneMore(Flatten(before), packets, Flatten(now), packet);
  }

  class ShredEngine {
    const fragmentor: Fragmentor
    const shaper: TrafficShaper
    const mixer: MaskMixer?
    const enableMasking: bool
    var written: seq<seq<byte>>

    constructor (fragmentor: Fragmentor, shaper: TrafficShaper, mixer: MaskMixer?, enableMasking: bool)
      ensures this.fragmentor == fragmentor && this.shaper == shaper && this.mixer == mixer
      ensures this.enableMasking == enableMasking && written == []
    {
      this.fragmentor, this.shaper, this.mixer := fragmentor, shaper, mixer;
      this.enableMasking, written := enableMasking, [];
    }

    predicate Sound()
      reads this, fragmentor
    {
      fragmentor.Sound() && shaper.minBurst > 0
    }

    /** The mode packets are masked in, if they are. */
    function Mode(): Option<int>
      reads if mixer == null then {} else {mixer}
    {
      if enableMasking && mixer != null then Some(mixer.currentMode) else None
    }

    /** A mask that panics on every payload is in turn. */
    predicate Breaks()
      reads if mixer == null then {} else {mixer}
    {
      Mode().Some? && KindOf(Mode().value) in {QUIC, STUN}
    }

    function Bursts(c: Clocks): Sizes {
      Drawn(shaper.minBurst, shaper.maxBurst, c.burst)
    }

    function EachBursts(clocks: nat -> Clocks): nat -> Sizes {
      (i: nat) => Bursts(clocks(i))
    }

    /** Shape, fragment and write one packet: what is written is the packet, in order;
        or a first part of it, and that only when the sizes are not sound. */
    method Emit(packet: seq<byte>, c: Clocks) returns (end: Ending, ghost m: Emission)
      modifies this, fragmentor
      ensures written == old(written) + Join(m.groups)
      ensures Flatten(old(written)) <= Flatten(written) <= Flatten(old(written)) + packet
      ensures end.Finished? ==> Emits(m, packet, Bursts(c)) && Flatten(written) == Flatten(old(written)) + packet
      ensures old(Sound()) ==> end.Finished? && Sound() && Within(m.sizes, fragmentor.minSize, fragmentor.maxSize)
    {
      hide Sent, Flatten;
      var bursts, shaped := shaper.Process(packet, c.burst, c.turns);
      NothingSent(written, bursts);
      ghost var groups, sizes := [], [];
      SentPart(written, written, groups, sizes, bursts, 0);
      if !shaped.Finished? {
        return shaped, Emission(bursts, [], []);
      }
      for i := 0 to |bursts|
        invariant old(Sound()) ==> Sound() && Within(sizes, fragmentor.minSize, fragmentor.maxSize)
        invariant Sent(old(written), written, groups, sizes, bursts[..i])
      {
        var fragments, cut := fragmentor.Fragment(bursts[i], c.time(i), c.fragment(i));
        if !cut.Finished? {
          SentPart(old(written), written, groups, sizes, bursts, i);
          return cut, Emission(bursts, groups, sizes);
        }
        SendOne(old(written), written, groups, sizes, bursts, i, fragments, fragmentor.currentSize);
        groups, sizes := groups + [fragments], sizes + [fragmentor.currentSize];
        written := written + fragments;
      }
      SentPart(old(written), written, groups, sizes, bursts, |bursts|);
      return Finished, Emission(bursts, groups, sizes);
    }

    method Mask(data: seq<byte>, e: Entropy) returns (w: Wrapped)
      modifies if mixer == null then {} else {mixer}
      ensures w.WrapCrashes? ==> old(Breaks())
      ensures Mode() == old(Mode()) && (w.Packet? ==> Masked(Mode(), data, w.data))
    {
      if enableMasking && mixer != null {
        w := mixer.Wrap(data, e);
      } else {
        w := Packet(data);
      }
    }

    /** One turn of the loop. */
    method ProcessOne(data: seq<byte>, e: Entropy, c: Clocks) returns (w: Wrapped, end: Ending, ghost m: Emission)
      modifies this, fragmentor, if mixer == null then {} else {mixer}
      ensures w.WrapCrashes? ==> old(Breaks()) && end == Panics && written == old(written)
      ensures w.Packet? ==>
                && written == old(written) + Join(m.groups)
                && Flatten(old(written)) <= Flatten(written) <= Flatten(old(written)) + w.data
      ensures w.Packet? && end.Finished? ==>
                Emits(m, w.data, Bursts(c)) && Flatten(written) == Flatten(old(written)) + w.data
      ensures old(Sound()) ==> Sound()
      ensures old(Sound()) && w.Packet? ==>
                end.Finished? && Within(m.sizes, fragmentor.minSize, fragmentor.maxSize)
      ensures Mode() == old(Mode()) && (w.Packet? ==> Masked(Mode(), data, w.data))
    {
      w := Mask(data, e);
      if w.WrapCrashes? {
        return w, Panics, Emission([], [], []);
      }
      end, m := Emit(w.data, c);
    }

    /** `Process` for the given reads. Each packet carries its read, or is the read when
        masking is off; what is written is the pieces of the packets, in order. Only the
        last packet can be cut short, and with sound sizes none is. */
    method Process(inputs: seq<seq<byte>>, draws: nat -> Entropy, clocks: nat -> Clocks)
      returns (packets: seq<seq<byte>>, end: Ending, ghost emissions: seq<Emission>)
      modifies this, fragmentor, if mixer == null then {} else {mixer}
      ensures Sends(old(written), written, inputs, packets, emissions, EachBursts(clocks), Mode(),
                    end.Finished? || old(Sound()))
      ensures Mode() == old(Mode())
      ensures end.Finished? ==> |packets| == |inputs|
      ensures old(Sound()) ==> Sound() && (!old(Breaks()) ==> end.Finished?)
      ensures old(Sound()) ==> forall m :: m in emissions ==>
                Within(m.sizes, fragmentor.minSize, fragmentor.maxSize)
    {
      hide Sends, Within, Emits, Masked, Flatten;
      ghost var z := EachBursts(clocks);
      packets, emissions := [], [];
      SendsNothing(written, inputs, z, Mode());
      for i := 0 to |inputs|
        invariant |packets| == i && Mode() == old(Mode())
        invariant Sends(old(written), written, inputs, packets, emissions, z, Mode(), true)
        invariant old(Sound()) ==> Sound() && forall m :: m in emissions ==>
                    Within(m.sizes, fragmentor.minSize, fragmentor.maxSize)
      {
        ghost var before := written;
        var w, done, m := ProcessOne(inputs[i], draws(i), clocks(i));
        if w.WrapCrashes? {
          SendsWhole(old(written), written, inputs, packets, emissions, z, Mode(), old(Sound()));
          return packets, Panics, emissions;
        }
        SendsOneMore(old(written), before, inputs, packets, emissions, z, Mode(), written, w.data, m, done.Finished?);
        packets, emissions := packets + [w.data], emissions + [m];
        if !done.Finished? {
          return packets, done, emissions;
        }
      }
      end := Finished;
    }
  }
}
