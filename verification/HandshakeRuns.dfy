/** Runs of the handshake protocol, built step by step from the start: what it allows. */
module HandshakeRuns {
  import opened Bytes
  import opened HandshakeCodec
  import opened HandshakeLaws
  import TimedCache
  import opened HandshakeProtocol

  // ------------------------------------------------------------- longer runs

  ghost predicate Ends(mac: Mac, worlds: seq<World>, actions: seq<Action>, w: World) {
    IsRun(mac, worlds, actions) && worlds[|actions|] == w
  }

  lemma StepOf(mac: Mac, worlds: seq<World>, actions: seq<Action>, i: nat, w: World, a: Action, v: World)
    requires IsRun(mac, worlds, actions) && i < |actions|
    requires w == worlds[i] && a == actions[i] && v == worlds[i + 1]
    ensures Next(mac, w, a, v)
  {}

  lemma Extend(mac: Mac, worlds: seq<World>, actions: seq<Action>, w: World, a: Action, v: World)
    requires Ends(mac, worlds, actions, w) && Next(mac, w, a, v)
    ensures Ends(mac, worlds + [v], actions + [a], v)
  {
    hide Encoding, Decode, Checksum;
    var ws, acts := worlds + [v], actions + [a];
    forall i | 0 <= i < |acts|
      ensures Next(mac, ws[i], acts[i], ws[i + 1])
    {
      if i < |actions| {
        StepOf(mac, worlds, actions, i, ws[i], acts[i], ws[i + 1]);
      }
    }
  }

  /** Forgery is a matter of packets and signatures only. */
  lemma SameNet(mac: Mac, w: World, v: World)
    requires NoForgery(mac, w) && v.net == w.net && v.built == w.built
    ensures NoForgery(mac, v)
  {
    forall p | p in v.net && Authentic(mac, Cut(p))
      ensures SignedData(v, Cut(p)[..|Cut(p)| - SIGNATURE_LEN])
    {
      var b :| b in w.built && Encoding(b.h) == Cut(p)[..|Cut(p)| - SIGNATURE_LEN];
      assert b in v.built;
    }
  }

  lemma Unforged(mac: Mac, worlds: seq<World>, actions: seq<Action>, w: World)
    requires Ends(mac, worlds, actions, w)
    ensures NoForgery(mac, w)
  {
    Invariant(mac, worlds, actions, |actions|);
  }

  // --------------------------------------------------------------- each step

  function WithThread(w: World, k: nat, t: Thread): World
    requires k < |w.threads|
  {
    w.(threads := w.threads[k := t])
  }

  lemma TakeStep(mac: Mac, w: World, k: nat, p: seq<byte>, syn: Handshake)
    requires !w.crashed && NoForgery(mac, w) && p in w.net
    requires k < |w.threads| && w.threads[k].Idle?
    requires Judge(mac, SYN, w.seen, w.now, p) == Accept(syn)
    ensures Next(mac, w, Take(k, p), WithThread(w, k, Checked(syn)))
  {
    SameNet(mac, w, WithThread(w, k, Checked(syn)));
  }

  /** A sweep that takes no time. */
  function Purged(seen: map<u64, int>, now: int): map<u64, int> {
    map s | s in seen && now - seen[s] <= TimedCache.MINUTE :: seen[s]
  }

  function AfterMark(w: World, k: nat): World
    requires k < |w.threads| && w.threads[k].Checked?
  {
    var syn := w.threads[k].syn;
    WithThread(w, k, Marked(syn, w.now)).(seen := Purged(w.seen[syn.sequence := w.now], w.now))
  }

  lemma MarkStep(mac: Mac, w: World, k: nat)
    requires !w.crashed && NoForgery(mac, w) && k < |w.threads| && w.threads[k].Checked?
    ensures Next(mac, w, Mark(k), AfterMark(w, k))
  {
    SameNet(mac, w, AfterMark(w, k));
  }

  /** Two connections that check one after the other, before either marks, both pass. */
  lemma BothChecksPass(mac: Mac, worlds: seq<World>, actions: seq<Action>, w: World, j: nat, k: nat,
                       p: seq<byte>, syn: Handshake)
    returns (longer: seq<World>, more: seq<Action>, v: World)
    requires Ends(mac, worlds, actions, w) && !w.crashed && p in w.net
    requires j < |w.threads| && k < |w.threads| && j != k && w.threads[j].Idle? && w.threads[k].Idle?
    requires Judge(mac, SYN, w.seen, w.now, p) == Accept(syn)
    ensures Ends(mac, longer, more, v)
    ensures v == w.(threads := w.threads[j := Checked(syn)][k := Checked(syn)])
  {
    Unforged(mac, worlds, actions, w);
    TakeStep(mac, w, j, p, syn);
    var u := WithThread(w, j, Checked(syn));
    Extend(mac, worlds, actions, w, Take(j, p), u);
    SameNet(mac, w, u);
    TakeStep(mac, u, k, p, syn);
    v := WithThread(u, k, Checked(syn));
    longer, more := worlds + [u], actions + [Take(j, p)];
    Extend(mac, longer, more, u, Take(k, p), v);
    longer, more := longer + [v], more + [Take(k, p)];
  }

  /** And then both mark the number at the same instant. */
  lemma BothMarksFollow(mac: Mac, worlds: seq<World>, actions: seq<Action>, w: World, j: nat, k: nat, syn: Handshake)
    returns (longer: seq<World>, more: seq<Action>, v: World)
    requires Ends(mac, worlds, actions, w) && !w.crashed
    requires j < |w.threads| && k < |w.threads| && j != k
    requires w.threads[j] == w.threads[k] == Checked(syn)
    ensures Ends(mac, longer, more, v)
    ensures |v.threads| == |w.threads| && v.threads[j] == v.threads[k] == Marked(syn, w.now)
  {
    Unforged(mac, worlds, actions, w);
    MarkStep(mac, w, j);
    var u := AfterMark(w, j);
    Extend(mac, worlds, actions, w, Mark(j), u);
    SameNet(mac, w, u);
    MarkStep(mac, u, k);
    v := AfterMark(u, k);
    longer, more := worlds + [u], actions + [Mark(j)];
    Extend(mac, longer, more, u, Mark(k), v);
    longer, more := longer + [v], more + [Mark(k)];
  }

  // -------------------------------------------------------- honest networks

  /** Every packet was built and sent by a key holder, for at most 255 modes. */
  ghost predicate HonestNet(mac: Mac, w: World) {
    forall p :: p in w.net ==> exists b :: b in w.built && |b.h.modes| <= 255 && p == Packet(mac, b.h)
  }

  lemma PacketSigned(mac: Mac, w: World, b: Signed, p: seq<byte>)
    requires IsMac(mac) && b in w.built && |b.h.modes| <= 255 && p == Packet(mac, b.h)
    ensures |Cut(p)| >= SIGNATURE_LEN && SignedData(w, Cut(p)[..|Cut(p)| - SIGNATURE_LEN])
  {
    EncodedLength(b.h);
    assert p[..|p| - SIGNATURE_LEN] == Encoding(b.h);
  }

  lemma HonestUnforged(mac: Mac, w: World)
    requires IsMac(mac) && HonestNet(mac, w)
    ensures NoForgery(mac, w)
  {
    forall p | p in w.net && Authentic(mac, Cut(p))
      ensures SignedData(w, Cut(p)[..|Cut(p)| - SIGNATURE_LEN])
    {
      var b :| b in w.built && |b.h.modes| <= 255 && p == Packet(mac, b.h);
      PacketSigned(mac, w, b, p);
    }
  }

  lemma HonestSend(mac: Mac, w: World, v: World, h: Handshake)
    requires HonestNet(mac, w) && |h.modes| <= 255
    requires v.net == w.net + {Packet(mac, h)} && v.built == w.built + {Signed(h, Decode(Encoding(h)))}
    ensures HonestNet(mac, v)
  {
    forall p | p in v.net
      ensures exists b :: b in v.built && |b.h.modes| <= 255 && p == Packet(mac, b.h)
    {
      if p in w.net {
        var b :| b in w.built && |b.h.modes| <= 255 && p == Packet(mac, b.h);
        assert b in v.built;
      } else {
        assert Signed(h, Decode(Encoding(h))) in v.built;
      }
    }
  }

  lemma HonestSame(mac: Mac, w: World, v: World)
    requires HonestNet(mac, w) && v.net == w.net && v.built == w.built
    ensures HonestNet(mac, v)
  {
    forall p | p in v.net
      ensures exists b :: b in v.built && |b.h.modes| <= 255 && p == Packet(mac, b.h)
    {
      var b :| b in w.built && |b.h.modes| <= 255 && p == Packet(mac, b.h);
      assert b in v.built;
    }
  }

  /** What a client asks for. */
  datatype Request = Request(interval: u32, modes: seq<int>, currentMode: int)

  function SynOf(r: Request, sequence: u64, clock: u64, nonce: Nonce): Handshake {
    NewHandshake(SYN, r.interval, r.modes, r.currentMode, sequence, clock, nonce)
  }

  function ConnectFor(c: nat, r: Request, sequence: u64, clock: u64, nonce: Nonce): Action {
    Connect(c, r.interval, r.modes, r.currentMode, sequence, clock, nonce)
  }

  function AfterConnect(mac: Mac, w: World, c: nat, syn: Handshake): World
    requires c < |w.clients|
  {
    Sending(mac, w, syn).(clients := w.clients[c := Waiting(syn, map[])])
  }

  lemma ConnectStep(mac: Mac, w: World, c: nat, r: Request, sequence: u64, clock: u64, nonce: Nonce, syn: Handshake)
    requires IsMac(mac) && !w.crashed && c < |w.clients| && HonestNet(mac, w)
    requires |r.modes| <= 255 && syn == SynOf(r, sequence, clock, nonce)
    ensures Next(mac, w, ConnectFor(c, r, sequence, clock, nonce), AfterConnect(mac, w, c, syn))
    ensures HonestNet(mac, AfterConnect(mac, w, c, syn))
  {
    var v := AfterConnect(mac, w, c, syn);
    HonestSend(mac, w, v, syn);
    HonestUnforged(mac, v);
  }

  function AfterAnswer(mac: Mac, w: World, k: nat, next: u64, ack: Handshake): World
    requires k < |w.threads| && w.threads[k].Marked?
  {
    Sending(mac, w, ack).(sequence := next, threads := w.threads[k := Answered(w.threads[k], ack)])
  }

  lemma AnswerStep(mac: Mac, w: World, k: nat, clock: u64, nonce: Nonce, next: u64, ack: Handshake)
    requires IsMac(mac) && !w.crashed && k < |w.threads| && w.threads[k].Marked? && HonestNet(mac, w)
    requires next == (w.sequence + 1) % 0x1_0000_0000_0000_0000
    requires |w.threads[k].syn.modes| <= 255 && ack == AckFor(ConfigOf(w.threads[k].syn), next, clock, nonce)
    ensures Next(mac, w, Answer(k, clock, nonce), AfterAnswer(mac, w, k, next, ack))
    ensures HonestNet(mac, AfterAnswer(mac, w, k, next, ack))
  {
    var v := AfterAnswer(mac, w, k, next, ack);
    HonestSend(mac, w, v, ack);
    HonestUnforged(mac, v);
  }

  lemma HearStep(mac: Mac, w: World, c: nat, p: seq<byte>, ack: Handshake)
    requires !w.crashed && NoForgery(mac, w) && p in w.net
    requires c < |w.clients| && w.clients[c].Waiting?
    requires Judge(mac, ACK, w.clients[c].seen, w.now, p) == Accept(ack)
    ensures Next(mac, w, Hear(c, p), w.(clients := w.clients[c := Established(w.clients[c].sent, ack)]))
  {
    SameNet(mac, w, w.(clients := w.clients[c := Established(w.clients[c].sent, ack)]));
  }

  function Dawn(clients: seq<Client>, threads: seq<Thread>): World {
    World({}, {}, clients, threads, map[], 0, 0, false)
  }

  /** The first step of a run: one client sends its SYN. */
  lemma FirstConnect(mac: Mac, w: World, c: nat, r: Request, sequence: u64, clock: u64, nonce: Nonce)
    returns (worlds: seq<World>, actions: seq<Action>, v: World)
    requires IsMac(mac) && |r.modes| <= 255 && Init(w) && w.now == 0 && c < |w.clients|
    ensures Ends(mac, worlds, actions, v) && HonestNet(mac, v)
    ensures v == AfterConnect(mac, w, c, SynOf(r, sequence, clock, nonce))
    ensures actions == [ConnectFor(c, r, sequence, clock, nonce)]
  {
    var syn := SynOf(r, sequence, clock, nonce);
    var a := ConnectFor(c, r, sequence, clock, nonce);
    ConnectStep(mac, w, c, r, sequence, clock, nonce, syn);
    v := AfterConnect(mac, w, c, syn);
    Extend(mac, [w], [], w, a, v);
    worlds, actions := [w] + [v], [] + [a];
  }

  ghost predicate Acceptable(mac: Mac, syn: Handshake) {
    Judge(mac, SYN, map[], 0, Packet(mac, syn)) == Accept(syn)
  }

  /** Two connections wait, and an acceptable SYN is on the network. */
  ghost predicate Offered(mac: Mac, w: World, p: seq<byte>, syn: Handshake) {
    && !w.crashed && w.now == 0 && p in w.net && w.threads == [Idle, Idle]
    && Judge(mac, SYN, w.seen, 0, p) == Accept(syn)
  }

  lemma OfferedAfter(mac: Mac, w: World, syn: Handshake)
    requires Acceptable(mac, syn) && w == Dawn([Fresh], [Idle, Idle])
    ensures Offered(mac, AfterConnect(mac, w, 0, syn), Packet(mac, syn), syn)
  {}

  lemma DoubleAcceptance(mac: Mac, worlds: seq<World>, actions: seq<Action>, w: World, p: seq<byte>, syn: Handshake)
    returns (longer: seq<World>, more: seq<Action>, v: World)
    requires Ends(mac, worlds, actions, w) && Offered(mac, w, p, syn)
    ensures Ends(mac, longer, more, v)
    ensures v.threads == [Marked(syn, 0), Marked(syn, 0)]
  {
    hide Encoding, Decode;
    longer, more, v := BothChecksPass(mac, worlds, actions, w, 0, 1, p, syn);
    longer, more, v := BothMarksFollow(mac, longer, more, v, 0, 1, syn);
  }

  lemma SynAccepted(mac: Mac, r: Request, syn: Handshake, sequence: u64, clock: u64, nonce: Nonce)
    requires IsMac(mac) && |r.modes| <= 255 && AreWords(r.modes) && ModeWord(r.currentMode) != 0
    requires syn == SynOf(r, sequence, clock, nonce)
    ensures Acceptable(mac, syn)
  {
    DivUnique(|r.modes|, 256, 0, |r.modes|);
    HonestPacketArrivesWhole(mac, SYN, map[], 0, syn);
  }

  /** A client connects to a server with two waiting connections: in a run from the
      start, both accept the one SYN at the same instant. */
  lemma ConcurrentDoubleAcceptance(mac: Mac, r: Request, sequence: u64, clock: u64, nonce: Nonce)
    returns (worlds: seq<World>, actions: seq<Action>, w: World)
    requires IsMac(mac) && |r.modes| <= 255 && AreWords(r.modes) && ModeWord(r.currentMode) != 0
    ensures Ends(mac, worlds, actions, w)
    ensures w.threads == [Marked(SynOf(r, sequence, clock, nonce), 0), Marked(SynOf(r, sequence, clock, nonce), 0)]
  {
    hide Encoding, Decode, Checksum;
    var syn := SynOf(r, sequence, clock, nonce);
    var dawn := Dawn([Fresh], [Idle, Idle]);
    SynAccepted(mac, r, syn, sequence, clock, nonce);
    OfferedAfter(mac, dawn, syn);
    worlds, actions, w := FirstConnect(mac, dawn, 0, r, sequence, clock, nonce);
    worlds, actions, w := DoubleAcceptance(mac, worlds, actions, w, Packet(mac, syn), syn);
  }
}
