/** What the data path delivers after a handshake, and the datagrams that break it. */
module Delivery {
  import opened Bytes
  import opened Masks
  import opened MaskPackets
  import opened MixerModel
  import opened MaskMixerClass
  import opened HandshakeCodec
  import opened HandshakeLaws
  import opened Sessions
  import Protocol = HandshakeProtocol
  import opened Sni
  import opened DataPath

  // ----------------------------------------------------------- exact delivery

  /** The payload of each datagram put on the wire; a keepalive has none. */
  function Sent(end: End, events: seq<Event>): seq<seq<byte>> {
    if events == [] then [] else
    Sent(end, events[..|events| - 1]) +
    match events[|events| - 1]
    case Send(p, _) => if Sends(end, p) then [p] else []
    case Beat => [[]]
    case Inject(_) => [[]]
    case Deliver(_) => []
  }

  /** Delivering the last event hands over a payload that the receiver dies of. */
  predicate KillsLast(end: End, events: seq<Event>)
    requires events != []
  {
    var sent := Sent(end, events[..|events| - 1]);
    match events[|events| - 1]
    case Deliver(k) => k < |sent| && Fatal(end, sent[k])
    case _ => false
  }

  predicate Dies(end: End, events: seq<Event>) {
    events != [] && (Dies(end, events[..|events| - 1]) || KillsLast(end, events))
  }

  /** Each delivery of a datagram hands over its payload, if it passes the filter and
      the receiver still lives. */
  function Expected(end: End, events: seq<Event>): seq<seq<byte>> {
    if events == [] then [] else
    var earlier := events[..|events| - 1];
    Expected(end, earlier) +
    match events[|events| - 1]
    case Deliver(k) =>
      if k < |Sent(end, earlier)| && !Dies(end, earlier) then Filtered(end, Sent(end, earlier)[k]) else []
    case _ => []
  }

  /** A receiver dies exactly if some delivered payload is one that its scan overruns;
      at the server there are none. */
  lemma {:induction false} DiesExactly(end: End, events: seq<Event>)
    ensures Dies(end, events) <==> exists n :: 0 < n <= |events| && KillsLast(end, events[..n])
    ensures end.AtServer? ==> !Dies(end, events)
  {
    if events != [] {
      var last := |events| - 1;
      var earlier := events[..last];
      DiesExactly(end, earlier);
      assert events[..|events|] == events;
      forall n | 0 < n <= last
        ensures events[..n] == earlier[..n]
      {}
      if Dies(end, earlier) {
        var n :| 0 < n <= last && KillsLast(end, earlier[..n]);
        assert KillsLast(end, events[..n]);
      }
    }
  }

  predicate Ordinary(end: End, e: Event) {
    match e
    case Send(p, d) => !TlsLike(p) && !(end.AtServer? && IsFin(d))
    case Inject(_) => false
    case _ => true
  }

  ghost predicate AllOrdinary(end: End, events: seq<Event>) {
    forall i :: 0 <= i < |events| ==> Ordinary(end, events[i])
  }

  ghost predicate Regular(end: End, wire: seq<Datagram>, sent: seq<seq<byte>>) {
    && |wire| == |sent|
    && forall k :: 0 <= k < |wire| ==>
         && (Plain(wire[k]) || wire[k].origin.KeepAlive?)
         && sent[k] == (if wire[k].origin.KeepAlive? then [] else wire[k].origin.payload)
         && (wire[k].origin.KeepAlive? ==> wire[k].data == [0])
         && !(end.AtServer? && IsFin(wire[k].data))
  }

  lemma {:induction false} WireIsSent(end: End, kind: Kind, events: seq<Event>)
    requires AllOrdinary(end, events)
    ensures Regular(end, ChannelRun(end, kind, events).wire, Sent(end, events))
  {
    if events != [] {
      var n := |events| - 1;
      WireIsSent(end, kind, events[..n]);
      assert Ordinary(end, events[n]);
    }
  }

  lemma LastStep(end: End, kind: Kind, c: Channel, sent: seq<seq<byte>>, e: Event)
    requires Ordinary(end, e) && Regular(end, c.wire, sent)
    requires forall k :: 0 <= k < |c.wire| ==> c.wire[k].data != []
    ensures var d := ChannelStep(end, kind, c, e);
            var reaches := e.Deliver? && e.k < |sent| && c.status == Open;
            && d.out == c.out + (if reaches then Filtered(end, sent[e.k]) else [])
            && d.status == if reaches && Fatal(end, sent[e.k]) then Crashed else c.status
  {}

  lemma {:induction false} ChannelGivesExpected(end: End, kind: Kind, events: seq<Event>)
    requires AllOrdinary(end, events)
    requires forall k :: 0 <= k < |ChannelRun(end, kind, events).wire| ==>
               ChannelRun(end, kind, events).wire[k].data != []
    ensures ChannelRun(end, kind, events).out == Expected(end, events)
    ensures ChannelRun(end, kind, events).status == if Dies(end, events) then Crashed else Open
  {
    if events != [] {
      var n := |events| - 1;
      var earlier := events[..n];
      var c, d := ChannelRun(end, kind, earlier), ChannelRun(end, kind, events);
      WirePrefix(end, kind, events);
      forall k | 0 <= k < |c.wire|
        ensures c.wire[k].data != []
      {
        assert d.wire[k] == c.wire[k];
      }
      ChannelGivesExpected(end, kind, earlier);
      WireIsSent(end, kind, earlier);
      LastStep(end, kind, c, Sent(end, earlier), events[n]);
    }
  }

  lemma NothingFromNothing(kind: Kind)
    requires kind in CARRYING
    ensures UnwrapBy(kind, []).Fails?
  {}

  /** With no stray datagrams, no payload that looks like a TLS record and no wrapped
      packet that looks like a FIN, every send history and every loss, repetition and
      reordering gives exactly the payloads delivered, byte for byte, and the receiver
      stays open if and only if none of them is one that its scan overruns. */
  lemma ExactDelivery(end: End, modes: seq<int>, sender: Mixer, receiver: Mixer, events: seq<Event>)
    requires modes != [] && KindOf(modes[0]) in CARRYING
    requires Settled(sender, modes) && Settled(receiver, modes)
    requires Possible(end, Start(sender, receiver), events)
    requires AllOrdinary(end, events)
    ensures var l := Run(end, Start(sender, receiver), events);
            && l.receiver.out == Expected(end, events)
            && l.receiver.status == (if Dies(end, events) then Crashed else Open)
            && Settled(l.sender, modes) && Settled(l.receiver.mixer, modes)
  {
    var kind := KindOf(modes[0]);
    var c := ChannelRun(end, kind, events);
    WireIsSent(end, kind, events);
    EndToEnd(end, modes, sender, receiver, events);
    forall k | 0 <= k < |c.wire|
      ensures c.wire[k].data != []
    {
      assert Consistent(c.wire[k], kind);
      NothingFromNothing(kind);
    }
    ChannelGivesExpected(end, kind, events);
  }

  /** The delivery at position `n` hands over `p` to a receiver that still lives. */
  predicate HandsOver(end: End, events: seq<Event>, n: nat, p: seq<byte>) {
    && n < |events| && events[n].Deliver? && !Dies(end, events[..n])
    && events[n].k < |Sent(end, events[..n])| && Sent(end, events[..n])[events[n].k] == p
  }

  ghost predicate HandedOver(end: End, events: seq<Event>, p: seq<byte>) {
    exists n :: HandsOver(end, events, n, p)
  }

  lemma HandedOverLast(end: End, events: seq<Event>, p: seq<byte>)
    requires events != []
    ensures var last := |events| - 1;
            HandedOver(end, events, p) <==> HandedOver(end, events[..last], p) || HandsOver(end, events, last, p)
  {
    var last := |events| - 1;
    var earlier := events[..last];
    forall n: nat | n < last
      ensures HandsOver(end, events, n, p) <==> HandsOver(end, earlier, n, p)
    {
      assert events[..n] == earlier[..n] && events[n] == earlier[n];
    }
    if HandedOver(end, events, p) {
      var n :| HandsOver(end, events, n, p);
      assert n == last || HandsOver(end, earlier, n, p);
    }
    if HandedOver(end, earlier, p) {
      var n :| HandsOver(end, earlier, n, p);
      assert HandsOver(end, events, n, p);
    }
  }

  lemma {:induction false} ExpectedHolds(end: End, events: seq<Event>, p: seq<byte>)
    ensures p in Expected(end, events) <==>
            && HandedOver(end, events, p)
            && (if |p| >= 20 then 0x40 <= p[0] < 0x50 || 0x60 <= p[0] < 0x70 else end.AtClient? && p != [])
  {
    if events != [] {
      ExpectedHolds(end, events[..|events| - 1], p);
      HandedOverLast(end, events, p);
    }
  }

  /** What is in the output, in terms of bytes: exactly the payloads handed over that
      begin with an IP version, 4 or 6, in the high half of the first byte; and at the
      client also those of 1 to 19 bytes. */
  lemma OutputHolds(end: End, modes: seq<int>, sender: Mixer, receiver: Mixer, events: seq<Event>, p: seq<byte>)
    requires modes != [] && KindOf(modes[0]) in CARRYING
    requires Settled(sender, modes) && Settled(receiver, modes)
    requires Possible(end, Start(sender, receiver), events)
    requires AllOrdinary(end, events)
    ensures p in Run(end, Start(sender, receiver), events).receiver.out <==>
            && HandedOver(end, events, p)
            && (if |p| >= 20 then 0x40 <= p[0] < 0x50 || 0x60 <= p[0] < 0x70 else end.AtClient? && p != [])
  {
    ExactDelivery(end, modes, sender, receiver, events);
    ExpectedHolds(end, events, p);
  }

  lemma OneEach(end: End, modes: seq<int>, sender: Mixer, receiver: Mixer, events: seq<Event>)
    requires modes != [] && KindOf(modes[0]) in CARRYING
    requires Settled(sender, modes) && Settled(receiver, modes)
    requires Possible(end, Start(sender, receiver), events)
    requires AllOrdinary(end, events)
    ensures |Run(end, Start(sender, receiver), events).wire| == |Sent(end, events)|
  {
    WireIsSent(end, KindOf(modes[0]), events);
    EndToEnd(end, modes, sender, receiver, events);
  }

  lemma PossibleWithDelivery(end: End, l: Link, events: seq<Event>, k: nat)
    requires Possible(end, l, events)
    ensures Possible(end, l, events + [Deliver(k)])
  {
    var longer := events + [Deliver(k)];
    forall i | 0 <= i < |longer| && longer[i].Send?
      ensures Fits(longer[i]) && MayWrap(Run(end, l, longer[..i]).sender, longer[i].payload, longer[i].data)
    {
      assert longer[i] == events[i] && longer[..i] == events[..i];
    }
  }

  /** What sending and then handing over a payload adds to the expected output. */
  lemma ExpectedGains(end: End, events: seq<Event>, p: seq<byte>, d: seq<byte>)
    requires !Dies(end, events)
    ensures Expected(end, events + [Send(p, d)] + [Deliver(|Sent(end, events)|)]) == Expected(end, events) +
              if |p| >= 20 then (if 0x40 <= p[0] < 0x50 || 0x60 <= p[0] < 0x70 then [p] else [])
              else if end.AtClient? && p != [] then [p]
              else []
  {
    var two := events + [Send(p, d)];
    var three := two + [Deliver(|Sent(end, events)|)];
    assert three[..|two|] == two && two[..|events|] == events;
    assert Expected(end, two) == Expected(end, events) + [];
    assert !Dies(end, two);
  }

  /** A payload that is sent and then handed over comes out once, after all that came
      out before, or not at all. */
  lemma SentComesOut(end: End, modes: seq<int>, sender: Mixer, receiver: Mixer, events: seq<Event>,
                     p: seq<byte>, d: seq<byte>)
    requires modes != [] && KindOf(modes[0]) in CARRYING
    requires Settled(sender, modes) && Settled(receiver, modes)
    requires AllOrdinary(end, events) && Ordinary(end, Send(p, d))
    requires Possible(end, Start(sender, receiver), events + [Send(p, d)])
    requires Run(end, Start(sender, receiver), events).receiver.status == Open
    ensures var l := Run(end, Start(sender, receiver), events);
            var m := Run(end, Start(sender, receiver), events + [Send(p, d)] + [Deliver(|l.wire|)]);
            m.receiver.out == l.receiver.out +
              if |p| >= 20 then (if 0x40 <= p[0] < 0x50 || 0x60 <= p[0] < 0x70 then [p] else [])
              else if end.AtClient? && p != [] then [p]
              else []
  {
    hide Run, Possible, Expected, Dies, Sent, Settled, UnwrapBy;
    var start := Start(sender, receiver);
    var two := events + [Send(p, d)];
    var k := |Run(end, start, events).wire|;
    assert two[..|two| - 1] == events;
    PossiblePrefix(end, start, two);
    PossibleWithDelivery(end, start, two, k);
    ExactDelivery(end, modes, sender, receiver, events);
    ExactDelivery(end, modes, sender, receiver, two + [Deliver(k)]);
    OneEach(end, modes, sender, receiver, events);
    ExpectedGains(end, events, p, d);
  }

  // -------------------------------------------------------- after a handshake

  /** The mixers of a session for `modes`, once `SyncModes` has run. */
  function SessionMixer(interval: int, modes: seq<int>, currentMode: int, hour: int, made: int, set_: int,
                        synced: int): Mixer {
    Synced(Created(interval, modes, if currentMode == 0 then VK_MODE else currentMode, hour, made, set_),
           interval, modes, synced)
  }

  lemma SyncSettles(interval: int, modes: seq<int>, currentMode: int, hour: int, made: int, set_: int, synced: int)
    requires modes != []
    ensures Settled(SessionMixer(interval, modes, currentMode, hour, made, set_, synced), modes)
  {}

  /** Clock readings while a session's mixer is made, set and synchronised. */
  datatype Times = Times(hour: int, made: int, set_: int, synced: int)

  /** The client's session is configured without a current mode. */
  function ClientMixer(modes: seq<int>, interval: int, t: Times): Mixer {
    SessionMixer(interval, modes, 0, t.hour, t.made, t.set_, t.synced)
  }

  /** The server's session has the configuration that its handshake returned. */
  function ServerMixer(config: Protocol.Config, t: Times): Mixer {
    SessionMixer(config.interval * 1_000_000_000, config.modes, config.currentMode, t.hour, t.made, t.set_, t.synced)
  }

  function Connected(end: End, client: Mixer, server: Mixer): Link {
    if end.AtServer? then Start(client, server) else Start(server, client)
  }

  /** Two sessions with one mode list deliver exactly what is sent, in either direction,
      whatever else their configurations say. */
  lemma SessionDelivery(end: End, modes: seq<int>, config: Protocol.Config, interval: int, s: Times, c: Times,
                        events: seq<Event>)
    requires modes != [] && KindOf(modes[0]) in CARRYING && config.modes == modes
    requires AllOrdinary(end, events)
    requires Possible(end, Connected(end, ClientMixer(modes, interval, c), ServerMixer(config, s)), events)
    ensures var l := Run(end, Connected(end, ClientMixer(modes, interval, c), ServerMixer(config, s)), events);
            && l.receiver.out == Expected(end, events)
            && l.receiver.status == (if Dies(end, events) then Crashed else Open)
            && l.receiver.mixer.currentMode == modes[0]
  {
    var client, server := ClientMixer(modes, interval, c), ServerMixer(config, s);
    SyncSettles(interval, modes, 0, c.hour, c.made, c.set_, c.synced);
    SyncSettles(config.interval * 1_000_000_000, modes, config.currentMode, s.hour, s.made, s.set_, s.synced);
    if end.AtServer? {
      ExactDelivery(end, modes, client, server, events);
    } else {
      ExactDelivery(end, modes, server, client, events);
    }
  }

  /** In any reachable state of the handshake protocol: a connection that took the packet
      of this client's SYN, and has answered, delivers exactly what is sent between the two. */
  lemma HandshakeThenDelivery(mac: Protocol.Mac, worlds: seq<Protocol.World>, actions: seq<Protocol.Action>,
                              j: nat, i: nat, c: nat, k: nat, end: End, interval: int, s: Times, t: Times,
                              events: seq<Event>)
    requires Protocol.IsMac(mac) && Protocol.IsRun(mac, worlds, actions) && j < i < |worlds|
    requires c < |worlds[i].clients| && (worlds[i].clients[c].Waiting? || worlds[i].clients[c].Established?)
    requires actions[j] == Protocol.Take(k, Protocol.Packet(mac, worlds[i].clients[c].sent))
    requires k < |worlds[i].threads| && worlds[i].threads[k].Done?
    requires var syn := worlds[i].clients[c].sent;
             Carried(syn) && syn.modes != [] && KindOf(syn.modes[0]) in CARRYING
    requires AllOrdinary(end, events)
    requires Possible(end, Connected(end, ClientMixer(worlds[i].clients[c].sent.modes, interval, t),
                                     ServerMixer(worlds[i].threads[k].config, s)), events)
    ensures var modes := worlds[i].clients[c].sent.modes;
            var l := Run(end, Connected(end, ClientMixer(modes, interval, t),
                                        ServerMixer(worlds[i].threads[k].config, s)), events);
            && l.receiver.out == Expected(end, events)
            && l.receiver.status == (if Dies(end, events) then Crashed else Open)
            && l.receiver.mixer.currentMode == modes[0]
  {
    hide Encoding, Decode, Checksum, Run, Possible, UnwrapBy, Protocol.Next, Protocol.Judge;
    Protocol.Invariant(mac, worlds, actions, i);
    var syn, thread := worlds[i].clients[c].sent, worlds[i].threads[k];
    Protocol.TookWhatWasSent(mac, worlds, actions, j, i, k, syn);
    assert Protocol.ThreadOk(worlds[i], thread);
    DecodedAgrees(syn);
    SessionDelivery(end, syn.modes, thread.config, interval, s, t, events);
  }

  // ------------------------------------------------------------ what breaks it

  /** A short payload that the server does send, and that is not taken for a TLS record,
      makes the client's scan run past its end; so does any datagram that carries it. */
  lemma FatalHelloKillsClient(m: Mixer, out: seq<seq<byte>>, header: seq<byte>)
    requires Settled(m, [7]) && |header| == 16
    ensures Sends(AtClient, FATAL_HELLO) && !TlsLike(FATAL_HELLO) && Fatal(AtClient, FATAL_HELLO)
    ensures Tame([7], header + FATAL_HELLO)
    ensures Receive(AtClient, Receiver(m, Open, out), header + FATAL_HELLO) ==
            Receiver(m.(packetsUnwrapped := m.packetsUnwrapped + 1), Crashed, out)
  {
    FatalHelloOverruns();
    MaskPackets.HeaderRoundTrip(VK, header, FATAL_HELLO);
    FatalIsNotIp(AtClient, FATAL_HELLO);
    assert out + [] == out;
  }

  /** A wrapped packet longer than the read buffer loses its end. */
  lemma OversizedIsCut(kind: Kind, header: seq<byte>, payload: seq<byte>)
    requires kind in {Yandex, VK, Zoom, Ozon, Wildberries, SberID, Gosuslugi} && |header| == HeaderLen(kind)
    ensures UnwrapBy(kind, Fit(header + payload)) == Payload(payload) <==> |header| + |payload| <= 65536
  {
    var d := header + payload;
    if |d| <= READ_BUFFER {
      MaskPackets.HeaderRoundTrip(kind, header, payload);
    } else {
      assert |UnwrapBy(kind, Fit(d)).bytes| == READ_BUFFER - |header|;
    }
  }

  /** A five-byte payload that looks like a TLS record is sent under the Browser
      mask; with Yandex first and VK second it moves the receiver off its mode. */
  lemma TlsLikePayloadMoves(head: seq<byte>)
    requires |head| == 12
    ensures var payload: seq<byte> := [0x16, 0x03, 0, 0, 0];
            && TlsLike(payload) && Sends(AtServer, payload)
            && !Tame([6, 7], BrowserPacket(head, payload, []))
  {
    var d := BrowserPacket(head, [0x16, 0x03, 0, 0, 0], []);
    assert |d| == 19;
    assert !Rejects(KindOf([6, 7][1]), d);
  }

  lemma SevenShifted()
    ensures UInt([0, 0, 7, 0]) == 0x700
  {
    var s: seq<byte> := [0, 0, 7, 0];
    assert UIntTo(s, 0) == 0 && UIntTo(s, 1) == 0 && UIntTo(s, 2) == 0 && UIntTo(s, 3) == 7;
  }

  lemma TwoAndSeven()
    ensures BE(4, 2) == [0, 0, 0, 2] && BE(4, 7) == [0, 0, 0, 7]
  {
    Shifts(2);
    Shifts(7);
  }

  lemma ListOfTwo()
    ensures EncodedModes([2, 7]) == BE(4, 2) + BE(4, 7)
  {
    assert [2, 7][..1] == [2];
    assert EncodedModes([2]) == EncodedModes([]) + BE(4, 2);
  }

  lemma TeamsReadsTheList(h: Handshake)
    requires h.modes == [2, 7] && h.currentMode == 2
    ensures |Encoding(h)| == 56 && UInt(Encoding(h)[16..20]) == 0x700
  {
    EncodedLength(h);
    var e := Encoding(h);
    ListOfTwo();
    assert e == Header(h) + (BE(4, 2) + BE(4, 7)) + Tail(h);
    assert Tail(h)[..4] == BE(4, 2);
    hide EncodedModes, Encoding, Header, Tail, BE, UInt;
    TwoAndSeven();
    assert |Header(h)| == HEADER_LEN;
    assert e[16..20] == [0, 0, 7, 0];
    SevenShifted();
  }

  /** The client writes its SYN three times; the copies left over after the handshake
      reach the data path and, with Teams first and VK second, move it to VK. */
  lemma LeftoverSynMoves(interval: u32, sequence: u64, clock: u64, nonce: Nonce, signature: seq<byte>)
    requires |signature| == 32
    ensures var syn := NewHandshake(SYN, interval, [2, 7], 2, sequence, clock, nonce);
            !Tame([2, 7], Encoding(syn) + signature)
  {
    var syn := NewHandshake(SYN, interval, [2, 7], 2, sequence, clock, nonce);
    var d := Encoding(syn) + signature;
    EncodedLength(syn);
    TeamsReadsTheList(syn);
    assert d[16..20] == Encoding(syn)[16..20];
    assert Rejects(Teams, d);
    assert !Rejects(KindOf([2, 7][1]), d);
  }

  lemma ShortWord(v: int)
    requires 0 <= v < 0x1_0000
    ensures BE(4, ModeWord(v))[1] == 0
  {
    DivUnique(v, 0x1_0000_0000, 0, v);
    Shifts(v);
    DivUnique(v, 0x1_0000, 0, v);
  }

  lemma SecondModeBytes(h: Handshake)
    requires |h.modes| >= 2 && 0 <= h.modes[1] < 0x1_0000
    ensures |Encoding(h)| > 16 && Encoding(h)[16] == 0
  {
    EncodedLength(h);
    EncodedModeAt(h.modes, 1);
    var list, word := EncodedModes(h.modes), BE(4, ModeWord(h.modes[1]));
    assert Encoding(h)[16] == list[5];
    ShortWord(h.modes[1]);
    hide BE, EncodedModes, Encoding, ModeWord;
    assert list[4..8] == word;
    assert list[5] == list[4..8][1] == word[1];
  }

  /** With VK first, as in the default list, leftover copies of either handshake packet
      are tame and nothing of them is delivered. */
  lemma LeftoverCopiesHarmless(end: End, h: Handshake, signature: seq<byte>)
    requires |h.modes| >= 2 && KindOf(h.modes[0]) == VK && 0 <= h.modes[1] < 0x1_0000
    requires |signature| == 32
    ensures var d := Encoding(h) + signature;
            && Tame(h.modes, d)
            && Output(end, UnwrapBy(VK, d), d) == []
  {
    var d := Encoding(h) + signature;
    EncodedLength(h);
    SecondModeBytes(h);
    assert d[16] == Encoding(h)[16];
    var p := d[16..];
    assert p[0] == 0 && |p| >= 20;
  }
}
