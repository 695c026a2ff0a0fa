/** The data path between the two ends of a session: internal/engine/client.go
    (`Send`, `readLoop`, `processIncomingPacket`) and internal/engine/server.go
    (`tunReadLoop`, `handleDataExchange`) over a network that may lose, repeat,
    reorder and add datagrams. */
module DataPath {
  import opened Bytes
  import opened Masks
  import opened MaskPackets
  import opened MixerModel
  import opened MaskMixerClass
  import opened Sni
  import HandshakeCodec

  /** Both ends read into buffers of this size; what a datagram has beyond it is lost. */
  const READ_BUFFER := 65536

  /** The end that receives. */
  datatype End = AtServer | AtClient

  datatype Status = Open | Closed | Crashed | Hung

  predicate IsIp(p: seq<byte>) {
    |p| >= 20 && p[0] / 16 in {4, 6}
  }

  /** The client sends short payloads and IP packets; the server sends whatever its
      TUN device gave, unless that is empty. */
  predicate Sends(receiver: End, payload: seq<byte>) {
    match receiver
    case AtServer => |payload| < 20 || IsIp(payload)
    case AtClient => payload != []
  }

  predicate Passes(end: End, payload: seq<byte>) {
    match end
    case AtServer => IsIp(payload)
    case AtClient => payload != [] && (|payload| < 20 || IsIp(payload))
  }

  function Filtered(end: End, payload: seq<byte>): seq<seq<byte>> {
    if Passes(end, payload) then [payload] else []
  }

  /** The client looks for a server name in every payload that may be a TLS handshake,
      and dies of an index out of range in some. */
  predicate Fatal(end: End, payload: seq<byte>) {
    end.AtClient? && |payload| > 43 && payload[0] == 0x16 && ExtractSni(payload).Overruns?
  }

  /** No fatal payload would pass the filter. */
  lemma FatalIsNotIp(end: End, payload: seq<byte>)
    requires Fatal(end, payload)
    ensures !Passes(end, payload)
  {}

  /** The server also lets through a raw IP packet that no mask accepts. */
  function Output(end: End, r: Unwrapped, data: seq<byte>): seq<seq<byte>> {
    if r.Payload? then Filtered(end, r.bytes)
    else if r.Fails? && end.AtServer? then Filtered(end, data)
    else []
  }

  predicate IsFin(data: seq<byte>) {
    |data| >= 5 && data[..4] == HandshakeCodec.MAGIC && data[4] == HandshakeCodec.FIN
  }

  datatype Receiver = Receiver(mixer: Mixer, status: Status, out: seq<seq<byte>>)

  function StatusAfter(end: End, r: Unwrapped): Status {
    match r
    case Crashes => Crashed
    case Hangs => Hung
    case Payload(p) => if Fatal(end, p) then Crashed else Open
    case Fails(_) => Open
  }

  /** What `Read` gives of a datagram. */
  function Fit(data: seq<byte>): (d: seq<byte>)
    ensures |d| <= READ_BUFFER
  {
    if |data| <= READ_BUFFER then data else data[..READ_BUFFER]
  }

  /** One read is handled. */
  function Receive(end: End, s: Receiver, data: seq<byte>): Receiver {
    if s.status != Open || data == [] then s
    else if end.AtServer? && IsFin(data) then s.(status := Closed)
    else
      var (r, mixer) := Unwrapping(s.mixer, data);
      Receiver(mixer, StatusAfter(end, r), s.out + Output(end, r, data))
  }

  // --------------------------------------------------------------------- runs

  datatype Origin = FromSend(payload: seq<byte>) | KeepAlive | Stray

  /** `data` is what a read of it gives. */
  datatype Datagram = Datagram(origin: Origin, data: seq<byte>)

  datatype Event =
    | Send(payload: seq<byte>, data: seq<byte>)
    | Beat
    | Inject(data: seq<byte>)
    | Deliver(k: nat)

  datatype Link = Link(sender: Mixer, wire: seq<Datagram>, receiver: Receiver)

  function Step(end: End, l: Link, e: Event): Link {
    match e
    case Send(p, d) =>
      if !Sends(end, p) then l
      else l.(sender := AfterWrap(l.sender, p), wire := l.wire + [Datagram(FromSend(p), Fit(d))])
    case Beat => l.(wire := l.wire + [Datagram(KeepAlive, [0])])
    case Inject(d) => l.(wire := l.wire + [Datagram(Stray, Fit(d))])
    case Deliver(k) => if k < |l.wire| then l.(receiver := Receive(end, l.receiver, l.wire[k].data)) else l
  }

  function Run(end: End, l: Link, events: seq<Event>): Link {
    if events == [] then l else Step(end, Run(end, l, events[..|events| - 1]), events[|events| - 1])
  }

  /** What the contract of the mixer's `Wrap` says of the datagram it returned. */
  predicate MayWrap(m: Mixer, payload: seq<byte>, data: seq<byte>) {
    var kind := KindOf(ModeFor(m, payload));
    kind in CARRYING && |payload| < WORD ==> UnwrapBy(kind, data) == Payload(payload)
  }

  predicate Fits(e: Event)
    requires e.Send?
  {
    |e.payload| <= READ_BUFFER && |e.data| <= READ_BUFFER
  }

  /** Each send gives a datagram that `Wrap` may return and that fits the read buffer. */
  ghost predicate Possible(end: End, l: Link, events: seq<Event>) {
    forall i :: 0 <= i < |events| && events[i].Send? ==>
      Fits(events[i]) && MayWrap(Run(end, l, events[..i]).sender, events[i].payload, events[i].data)
  }

  // ---------------------------------------------------------------- the channel

  /** The same events with no mixers and no modes: a payload that was sent comes out,
      as it was, whenever its datagram arrives. Only a datagram that the sender did
      not wrap for the first mode is put through that mode's parser. */
  datatype Channel = Channel(wire: seq<Datagram>, status: Status, out: seq<seq<byte>>)

  predicate Plain(g: Datagram) {
    g.origin.FromSend? && !TlsLike(g.origin.payload)
  }

  function Emerges(end: End, kind: Kind, g: Datagram): seq<seq<byte>> {
    if Plain(g) then Filtered(end, g.origin.payload)
    else if g.origin.KeepAlive? then []
    else Output(end, UnwrapBy(kind, g.data), g.data)
  }

  predicate Kills(end: End, kind: Kind, g: Datagram) {
    if Plain(g) then Fatal(end, g.origin.payload)
    else !g.origin.KeepAlive? && UnwrapBy(kind, g.data).Payload? && Fatal(end, UnwrapBy(kind, g.data).bytes)
  }

  function ChannelStep(end: End, kind: Kind, c: Channel, e: Event): Channel {
    match e
    case Send(p, d) => if Sends(end, p) then c.(wire := c.wire + [Datagram(FromSend(p), Fit(d))]) else c
    case Beat => c.(wire := c.wire + [Datagram(KeepAlive, [0])])
    case Inject(d) => c.(wire := c.wire + [Datagram(Stray, Fit(d))])
    case Deliver(k) =>
      if k >= |c.wire| || c.status != Open || c.wire[k].data == [] then c
      else if end.AtServer? && IsFin(c.wire[k].data) then c.(status := Closed)
      else
        var status := if Kills(end, kind, c.wire[k]) then Crashed else Open;
        c.(out := c.out + Emerges(end, kind, c.wire[k]), status := status)
  }

  function ChannelRun(end: End, kind: Kind, events: seq<Event>): Channel {
    if events == [] then Channel([], Open, []) else
    ChannelStep(end, kind, ChannelRun(end, kind, events[..|events| - 1]), events[|events| - 1])
  }

  // ------------------------------------------------------------- what mode keeps

  /** The mixer is on the first mode of `modes`, which is its list. */
  predicate Settled(m: Mixer, modes: seq<int>) {
    && modes != [] && m.modes == modes
    && m.currentMode == modes[0] && m.kind == KindOf(modes[0])
  }

  /** The first mode accepts the datagram, or no mode does. */
  ghost predicate Tame(modes: seq<int>, data: seq<byte>)
    requires modes != []
  {
    || UnwrapBy(KindOf(modes[0]), data).Payload?
    || forall i :: 0 <= i < |modes| ==> Rejects(KindOf(modes[i]), data)
  }

  lemma CarryingNeverCrashes(kind: Kind, data: seq<byte>)
    requires kind in CARRYING
    ensures UnwrapBy(kind, data).Payload? || UnwrapBy(kind, data).Fails?
  {}

  /** A settled mixer stays on its mode, and neither crashes nor hangs, exactly when
      the datagram is tame. */
  lemma StaysExactly(m: Mixer, modes: seq<int>, data: seq<byte>)
    requires Settled(m, modes) && KindOf(modes[0]) in CARRYING
    ensures var (r, n) := Unwrapping(m, data);
            Tame(modes, data) <==> Settled(n, modes) && (r.Payload? || r.Fails?)
    ensures Tame(modes, data) ==>
              var r := Unwrapping(m, data).0;
              r == UnwrapBy(KindOf(modes[0]), data) || (r.Fails? && Rejects(KindOf(modes[0]), data))
  {
    CarryingNeverCrashes(KindOf(modes[0]), data);
    FirstTakerIsFirst(modes, data);
  }

  lemma KeepAliveRejected(kind: Kind)
    ensures Rejects(kind, [0])
  {
    assert BlankLineIn([0]) == -1;
  }

  lemma KeepAliveTame(modes: seq<int>)
    requires modes != []
    ensures Tame(modes, [0])
  {
    forall i | 0 <= i < |modes|
      ensures Rejects(KindOf(modes[i]), [0])
    {
      KeepAliveRejected(KindOf(modes[i]));
    }
  }

  // ----------------------------------------------------------------- end to end

  predicate Consistent(g: Datagram, kind: Kind) {
    && (Plain(g) ==> UnwrapBy(kind, g.data) == Payload(g.origin.payload))
    && (g.origin.KeepAlive? ==> g.data == [0])
  }

  ghost predicate Inv(l: Link, c: Channel, modes: seq<int>) {
    && Settled(l.sender, modes) && Settled(l.receiver.mixer, modes)
    && l.wire == c.wire && l.receiver.status == c.status && l.receiver.out == c.out
    && (forall k :: 0 <= k < |l.wire| ==> Consistent(l.wire[k], KindOf(modes[0])))
  }

  ghost predicate StraysTame(wire: seq<Datagram>, modes: seq<int>)
    requires modes != []
  {
    forall k :: 0 <= k < |wire| && !Plain(wire[k]) && !wire[k].origin.KeepAlive? ==> Tame(modes, wire[k].data)
  }

  lemma DeliverKeeps(end: End, l: Link, c: Channel, modes: seq<int>, k: nat)
    requires modes != [] && KindOf(modes[0]) in CARRYING
    requires Inv(l, c, modes) && StraysTame(l.wire, modes)
    ensures Inv(Step(end, l, Deliver(k)), ChannelStep(end, KindOf(modes[0]), c, Deliver(k)), modes)
  {
    if k < |l.wire| {
      var g := l.wire[k];
      if g.origin.KeepAlive? {
        KeepAliveTame(modes);
        KeepAliveRejected(KindOf(modes[0]));
      }
      assert Consistent(g, KindOf(modes[0]));
      StaysExactly(l.receiver.mixer, modes, g.data);
    }
  }

  lemma SendKeeps(end: End, l: Link, c: Channel, modes: seq<int>, e: Event)
    requires modes != [] && KindOf(modes[0]) in CARRYING
    requires Inv(l, c, modes) && !e.Deliver?
    requires e.Send? ==> Fits(e) && MayWrap(l.sender, e.payload, e.data)
    ensures Inv(Step(end, l, e), ChannelStep(end, KindOf(modes[0]), c, e), modes)
  {
    var w := Step(end, l, e).wire;
    forall k | 0 <= k < |w|
      ensures Consistent(w[k], KindOf(modes[0]))
    {
      if k < |l.wire| {
        assert w[k] == l.wire[k];
      }
    }
  }

  function Start(sender: Mixer, receiver: Mixer): Link {
    Link(sender, [], Receiver(receiver, Open, []))
  }

  lemma PossiblePrefix(end: End, l: Link, events: seq<Event>)
    requires Possible(end, l, events) && events != []
    ensures Possible(end, l, events[..|events| - 1])
    ensures var n := |events| - 1;
            events[n].Send? ==>
              Fits(events[n]) && MayWrap(Run(end, l, events[..n]).sender, events[n].payload, events[n].data)
  {
    var earlier := events[..|events| - 1];
    forall i | 0 <= i < |earlier| && earlier[i].Send?
      ensures Fits(earlier[i]) && MayWrap(Run(end, l, earlier[..i]).sender, earlier[i].payload, earlier[i].data)
    {
      assert earlier[..i] == events[..i] && earlier[i] == events[i];
    }
  }

  lemma WirePrefix(end: End, kind: Kind, events: seq<Event>)
    requires events != []
    ensures var w, v := ChannelRun(end, kind, events).wire, ChannelRun(end, kind, events[..|events| - 1]).wire;
            |v| <= |w| && forall k :: 0 <= k < |v| ==> w[k] == v[k]
  {}

  /** End-to-end delivery. Between two settled ends whose first mode carries payloads,
      and whatever is sent, lost, repeated, reordered or added, as long as stray
      datagrams are tame: what comes out is what the channel without modes gives, and
      neither end ever leaves its mode. */
  lemma {:induction false} EndToEnd(end: End, modes: seq<int>, sender: Mixer, receiver: Mixer, events: seq<Event>)
    requires modes != [] && KindOf(modes[0]) in CARRYING
    requires Settled(sender, modes) && Settled(receiver, modes)
    requires Possible(end, Start(sender, receiver), events)
    requires StraysTame(ChannelRun(end, KindOf(modes[0]), events).wire, modes)
    ensures Inv(Run(end, Start(sender, receiver), events), ChannelRun(end, KindOf(modes[0]), events), modes)
  {
    if events != [] {
      var n := |events| - 1;
      var earlier := events[..n];
      var l, c := Run(end, Start(sender, receiver), earlier), ChannelRun(end, KindOf(modes[0]), earlier);
      PossiblePrefix(end, Start(sender, receiver), events);
      WirePrefix(end, KindOf(modes[0]), events);
      EndToEnd(end, modes, sender, receiver, earlier);
      if events[n].Deliver? {
        DeliverKeeps(end, l, c, modes, events[n].k);
      } else {
        SendKeeps(end, l, c, modes, events[n]);
      }
    }
  }
}
