/** The signed handshake of internal/shred/handshake.go between many clients and the
    connection threads of one server, over a network that keeps every packet for ever
    and to which anyone may add. */
module HandshakeProtocol {
  import opened Bytes
  import opened HandshakeCodec
  import opened HandshakeLaws
  import opened TimedCache

  const BUFFER_LEN := 4096
  const SIGNATURE_LEN := 32

  /** `Sign` under the shared key. */
  type Mac = seq<byte> -> seq<byte>

  ghost predicate IsMac(mac: Mac) {
    forall d :: |mac(d)| == SIGNATURE_LEN
  }

  datatype HandshakeError = AuthFailed | BadPacket(error: DecodeError) | HandshakeReplay

  datatype Verdict = Accept(h: Handshake) | Refuse(error: HandshakeError) | Panic

  /** What `Read` into the 4096-byte buffer gives of a packet. */
  function Cut(packet: seq<byte>): (r: seq<byte>)
    ensures |r| <= BUFFER_LEN
  {
    if |packet| <= BUFFER_LEN then packet else packet[..BUFFER_LEN]
  }

  predicate Authentic(mac: Mac, r: seq<byte>) {
    |r| >= SIGNATURE_LEN && mac(r[..|r| - SIGNATURE_LEN]) == r[|r| - SIGNATURE_LEN..]
  }

  function Judged(expected: byte, seen: map<u64, int>, now: int, d: Decoded): Verdict {
    match d
    case Panics => Panic
    case Rejected(error) => Refuse(BadPacket(error))
    case Decoded(h) =>
      if h.kind != expected then Refuse(AuthFailed)
      else if Replays(seen, h.sequence, HANDSHAKE_WINDOW, now) then Refuse(HandshakeReplay)
      else Accept(h)
  }

  /** Everything either side does with a packet up to the replay check. */
  function Judge(mac: Mac, expected: byte, seen: map<u64, int>, now: int, packet: seq<byte>): Verdict {
    var r := Cut(packet);
    if !Authentic(mac, r) then Refuse(AuthFailed)
    else Judged(expected, seen, now, Decode(r[..|r| - SIGNATURE_LEN]))
  }

  function Packet(mac: Mac, h: Handshake): seq<byte> {
    Encoding(h) + mac(Encoding(h))
  }

  /** `interval` in seconds. */
  datatype Config = Config(interval: u32, modes: seq<int>, currentMode: int)

  function ConfigOf(syn: Handshake): Config {
    Config(syn.switchInterval, syn.modes, syn.currentMode)
  }

  function AckFor(config: Config, sequence: u64, clock: u64, nonce: Nonce): Handshake {
    NewHandshake(ACK, config.interval, config.modes, config.currentMode, sequence, clock, nonce)
  }

  // -------------------------------------------------------------------- states

  /** A server connection: `at` is when its sequence number was marked. */
  datatype Thread =
    | Idle
    | Checked(syn: Handshake)
    | Marked(syn: Handshake, at: int)
    | Done(syn: Handshake, at: int, config: Config, ack: Handshake)
    | Failed(error: HandshakeError)

  datatype Client =
    | Fresh
    | Waiting(sent: Handshake, seen: map<u64, int>)
    | Established(sent: Handshake, ack: Handshake)
    | Broken(why: HandshakeError)
    | Panicked

  /** A handshake that a holder of the key signed, and what its bytes decode to. */
  datatype Signed = Signed(h: Handshake, meaning: Decoded)

  datatype World = World(
    net: set<seq<byte>>, built: set<Signed>, clients: seq<Client>, threads: seq<Thread>,
    seen: map<u64, int>, sequence: u64, now: int, crashed: bool)

  datatype Action =
    | Connect(c: nat, interval: u32, modes: seq<int>, currentMode: int, sequence: u64, clock: u64, nonce: Nonce)
    | Hear(c: nat, packet: seq<byte>)
    | Take(k: nat, packet: seq<byte>)
    | Mark(k: nat)
    | Answer(k: nat, clock: u64, nonce: Nonce)
    | Inject(packet: seq<byte>)
    | Tick

  ghost predicate Init(w: World) {
    && w.net == {} && w.built == {} && w.seen == map[] && w.sequence == 0 && !w.crashed
    && (forall c :: 0 <= c < |w.clients| ==> w.clients[c] == Fresh)
    && (forall k :: 0 <= k < |w.threads| ==> w.threads[k] == Idle)
  }

  ghost predicate SignedData(w: World, data: seq<byte>) {
    exists b :: b in w.built && Encoding(b.h) == data
  }

  /** HMAC as an ideal signature: whatever verifies was signed by a key holder. */
  ghost predicate NoForgery(mac: Mac, w: World) {
    forall p :: p in w.net && Authentic(mac, Cut(p)) ==> SignedData(w, Cut(p)[..|Cut(p)| - SIGNATURE_LEN])
  }

  function Sending(mac: Mac, w: World, h: Handshake): World {
    w.(net := w.net + {Packet(mac, h)}, built := w.built + {Signed(h, Decode(Encoding(h)))})
  }

  function Heard(client: Client, verdict: Verdict): Client
    requires client.Waiting?
  {
    match verdict
    case Accept(ack) => Established(client.sent, ack)
    case Refuse(error) => Broken(error)
    case Panic => Panicked
  }

  function Taken(w: World, k: nat, verdict: Verdict): World
    requires k < |w.threads|
  {
    match verdict
    case Accept(syn) => w.(threads := w.threads[k := Checked(syn)])
    case Refuse(error) => w.(threads := w.threads[k := Failed(error)])
    case Panic => w.(crashed := true)
  }

  function Answered(t: Thread, ack: Handshake): Thread
    requires t.Marked?
  {
    Done(t.syn, t.at, ConfigOf(t.syn), ack)
  }

  /** Every handshake of a client starts with `ResetReplayState`. Checking a sequence
      number and marking it are separate critical sections of the server. */
  ghost predicate Next(mac: Mac, w: World, a: Action, v: World) {
    && !w.crashed && w.now <= v.now
    && NoForgery(mac, v)
    && match a
       case Connect(c, interval, modes, currentMode, sequence, clock, nonce) =>
         var syn := NewHandshake(SYN, interval, modes, currentMode, sequence, clock, nonce);
         c < |w.clients| && v == Sending(mac, w, syn).(clients := w.clients[c := Waiting(syn, map[])])
       case Hear(c, packet) =>
         && c < |w.clients| && w.clients[c].Waiting? && packet in w.net
         && v == w.(clients := w.clients[c := Heard(w.clients[c], Judge(mac, ACK, w.clients[c].seen, w.now, packet))])
       case Take(k, packet) =>
         && k < |w.threads| && w.threads[k].Idle? && packet in w.net
         && v == Taken(w, k, Judge(mac, SYN, w.seen, w.now, packet))
       case Mark(k) =>
         && k < |w.threads| && w.threads[k].Checked?
         && PurgedBetween(w.seen[w.threads[k].syn.sequence := w.now], v.seen, w.now, v.now)
         && v == w.(threads := w.threads[k := Marked(w.threads[k].syn, w.now)], seen := v.seen, now := v.now)
       case Answer(k, clock, nonce) =>
         && k < |w.threads| && w.threads[k].Marked?
         && var t := w.threads[k];
            var next := (w.sequence + 1) % 0x1_0000_0000_0000_0000;
            var ack := AckFor(ConfigOf(t.syn), next, clock, nonce);
            v == Sending(mac, w, ack).(sequence := next, threads := w.threads[k := Answered(t, ack)])
       case Inject(packet) => v == w.(net := w.net + {packet})
       case Tick => v == w.(now := v.now)
  }

  ghost predicate IsRun(mac: Mac, worlds: seq<World>, actions: seq<Action>) {
    && |worlds| == |actions| + 1
    && Init(worlds[0])
    && forall i :: 0 <= i < |actions| ==> Next(mac, worlds[i], actions[i], worlds[i + 1])
  }

  // ---------------------------------------------------------------- invariants

  /** A key holder built a handshake of this type that decodes to `g`. */
  ghost predicate BuiltAs(w: World, kind: byte, g: Handshake) {
    exists b :: b in w.built && b.h.kind == kind && b.meaning == Decoded(g)
  }

  ghost predicate EmptyBuilt(w: World) {
    exists b :: b in w.built && b.h.modes == [] && b.h.currentMode == 0
  }

  predicate Took(t: Thread) {
    t.Checked? || t.Marked? || t.Done?
  }

  predicate IsAckFor(ack: Handshake, config: Config) {
    && ack.kind == ACK && ack.switchInterval == config.interval
    && ack.modes == config.modes && ack.modesCount == ByteOf(|config.modes|)
    && ack.currentMode == ModeWord(config.currentMode)
  }

  ghost predicate ThreadOk(w: World, t: Thread) {
    && (Took(t) ==> BuiltAs(w, SYN, t.syn))
    && (t.Done? ==> t.config == ConfigOf(t.syn) && IsAckFor(t.ack, t.config))
  }

  ghost predicate ClientOk(w: World, c: Client) {
    c.Established? ==> BuiltAs(w, ACK, c.ack)
  }

  ghost predicate BuiltOk(w: World, h: Handshake) {
    && (h.kind == SYN || h.kind == ACK)
    && (h.kind == ACK ==> exists k :: 0 <= k < |w.threads| && w.threads[k].Done? && w.threads[k].ack == h)
  }

  predicate HasMark(t: Thread) {
    t.Marked? || t.Done?
  }

  /** A mark is still in the cache, possibly renewed, unless it is over a minute old. */
  ghost predicate MarkKept(w: World, t: Thread) {
    HasMark(t) ==>
      && t.at <= w.now
      && ((t.syn.sequence in w.seen && w.seen[t.syn.sequence] >= t.at) || w.now - t.at > MINUTE)
  }

  ghost predicate Honest(w: World) {
    forall b :: b in w.built ==> b.meaning == Decode(Encoding(b.h))
  }

  ghost predicate Provenance(w: World) {
    && (forall b :: b in w.built ==> BuiltOk(w, b.h))
    && (forall k :: 0 <= k < |w.threads| ==> ThreadOk(w, w.threads[k]) && MarkKept(w, w.threads[k]))
    && (forall c :: 0 <= c < |w.clients| ==> ClientOk(w, w.clients[c]))
    && (w.crashed ==> EmptyBuilt(w))
  }

  ghost predicate Inv(mac: Mac, w: World) {
    NoForgery(mac, w) && Honest(w) && Provenance(w)
  }

  lemma KindByte(h: Handshake)
    ensures |Encoding(h)| > 4 && Encoding(h)[4] == h.kind
  {
    assert Encoding(h) == Header(h) + (EncodedModes(h.modes) + if h.currentMode != 0 then Tail(h) else []);
  }

  lemma DecodedKindByte(data: seq<byte>)
    requires Decode(data).Decoded?
    ensures |data| > 4 && Decode(data).h.kind == data[4]
  {}

  lemma DecodedKind(h: Handshake)
    requires Decode(Encoding(h)).Decoded?
    ensures Decode(Encoding(h)).h.kind == h.kind
  {
    KindByte(h);
    DecodedKindByte(Encoding(h));
  }

  /** The decoder's out-of-range index is met only by an empty list with mode zero. */
  lemma PanicsOnlyWhenEmpty(h: Handshake)
    requires Decode(Encoding(h)).Panics?
    ensures h.modes == [] && h.currentMode == 0
  {
    EncodedLength(h);
  }

  lemma OpenedWasBuilt(w: World, data: seq<byte>, d: Decoded)
    requires Honest(w) && SignedData(w, data) && d == Decode(data)
    ensures d.Decoded? ==> BuiltAs(w, d.h.kind, d.h)
    ensures d.Panics? ==> EmptyBuilt(w)
  {
    var b :| b in w.built && Encoding(b.h) == data;
    assert b.meaning == d;
    if d.Decoded? {
      DecodedKind(b.h);
    } else if d.Panics? {
      PanicsOnlyWhenEmpty(b.h);
    }
  }

  lemma JudgedWasBuilt(w: World, expected: byte, seen: map<u64, int>, now: int, d: Decoded)
    requires d.Decoded? ==> BuiltAs(w, d.h.kind, d.h)
    requires d.Panics? ==> EmptyBuilt(w)
    ensures var v := Judged(expected, seen, now, d);
            (v.Accept? ==> BuiltAs(w, expected, v.h)) && (v.Panic? ==> EmptyBuilt(w))
  {}

  /** An accepted packet carries data that a key holder built, of the expected type. */
  lemma AcceptedWasBuilt(mac: Mac, w: World, expected: byte, seen: map<u64, int>, packet: seq<byte>, v: Verdict)
    requires NoForgery(mac, w) && Honest(w) && packet in w.net
    requires v == Judge(mac, expected, seen, w.now, packet)
    ensures (v.Accept? ==> BuiltAs(w, expected, v.h)) && (v.Panic? ==> EmptyBuilt(w))
  {
    var r := Cut(packet);
    if Authentic(mac, r) {
      var data := r[..|r| - SIGNATURE_LEN];
      var d := Decode(data);
      OpenedWasBuilt(w, data, d);
      JudgedWasBuilt(w, expected, seen, w.now, d);
    }
  }

  /** More packets, more signatures and further progress keep what was known. */
  ghost predicate Grows(w: World, v: World) {
    && w.built <= v.built && |w.threads| == |v.threads|
    && forall k :: 0 <= k < |w.threads| && w.threads[k].Done? ==> v.threads[k] == w.threads[k]
  }

  lemma BuiltAsGrows(w: World, v: World, kind: byte, g: Handshake)
    requires w.built <= v.built && BuiltAs(w, kind, g)
    ensures BuiltAs(v, kind, g)
  {
    var b :| b in w.built && b.h.kind == kind && b.meaning == Decoded(g);
    assert b in v.built;
  }

  lemma EmptyGrows(w: World, v: World)
    requires w.built <= v.built && EmptyBuilt(w)
    ensures EmptyBuilt(v)
  {
    var b :| b in w.built && b.h.modes == [] && b.h.currentMode == 0;
    assert b in v.built;
  }

  lemma BuiltGrows(w: World, v: World, h: Handshake)
    requires Grows(w, v) && BuiltOk(w, h)
    ensures BuiltOk(v, h)
  {
    if h.kind == ACK {
      var k :| 0 <= k < |w.threads| && w.threads[k].Done? && w.threads[k].ack == h;
      assert v.threads[k].Done? && v.threads[k].ack == h;
    }
  }

  /** What is left to check of a step for everything but the part it changed. */
  lemma Framed(w: World, v: World, k: int, c: int)
    requires Provenance(w) && Grows(w, v)
    requires v.seen == w.seen && v.now == w.now
    requires |v.clients| == |w.clients|
    requires forall i :: 0 <= i < |w.threads| && i != k ==> v.threads[i] == w.threads[i]
    requires forall i :: 0 <= i < |w.clients| && i != c ==> v.clients[i] == w.clients[i]
    ensures forall b :: b in w.built ==> BuiltOk(v, b.h)
    ensures forall i :: 0 <= i < |v.threads| && i != k ==> ThreadOk(v, v.threads[i]) && MarkKept(v, v.threads[i])
    ensures forall i :: 0 <= i < |v.clients| && i != c ==> ClientOk(v, v.clients[i])
  {
    forall b | b in w.built
      ensures BuiltOk(v, b.h)
    {
      BuiltGrows(w, v, b.h);
    }
    forall i | 0 <= i < |v.threads| && i != k
      ensures ThreadOk(v, v.threads[i]) && MarkKept(v, v.threads[i])
    {
      assert ThreadOk(w, w.threads[i]) && MarkKept(w, w.threads[i]);
      if Took(w.threads[i]) {
        BuiltAsGrows(w, v, SYN, w.threads[i].syn);
      }
    }
    forall i | 0 <= i < |v.clients| && i != c
      ensures ClientOk(v, v.clients[i])
    {
      assert ClientOk(w, w.clients[i]);
      if w.clients[i].Established? {
        BuiltAsGrows(w, v, ACK, w.clients[i].ack);
      }
    }
  }

  lemma ConnectKeeps(w: World, v: World, c: int, syn: Handshake, meaning: Decoded)
    requires Provenance(w) && syn.kind == SYN
    requires v.built == w.built + {Signed(syn, meaning)}
    requires v.threads == w.threads && v.seen == w.seen && v.now == w.now && v.crashed == w.crashed
    requires |v.clients| == |w.clients|
    requires forall i :: 0 <= i < |w.clients| && i != c ==> v.clients[i] == w.clients[i]
    requires 0 <= c < |w.clients| ==> v.clients[c].Waiting?
    ensures Provenance(v)
  {
    Framed(w, v, -1, c);
    if w.crashed {
      EmptyGrows(w, v);
    }
  }

  lemma HeardKeeps(w: World, c: nat, verdict: Verdict)
    requires Provenance(w) && c < |w.clients| && w.clients[c].Waiting?
    requires verdict.Accept? ==> BuiltAs(w, ACK, verdict.h)
    ensures Provenance(w.(clients := w.clients[c := Heard(w.clients[c], verdict)]))
  {
    Framed(w, w.(clients := w.clients[c := Heard(w.clients[c], verdict)]), -1, c);
  }

  lemma TakenKeeps(w: World, k: nat, verdict: Verdict)
    requires Provenance(w) && k < |w.threads| && w.threads[k].Idle?
    requires verdict.Accept? ==> BuiltAs(w, SYN, verdict.h)
    requires verdict.Panic? ==> EmptyBuilt(w)
    ensures Provenance(Taken(w, k, verdict))
  {
    Framed(w, Taken(w, k, verdict), k, -1);
  }

  lemma MarkedThread(w: World, v: World, t: Thread, s: u64)
    requires MarkKept(w, t) && w.now <= v.now
    requires v.seen == w.seen || PurgedBetween(w.seen[s := w.now], v.seen, w.now, v.now)
    ensures MarkKept(v, t)
  {}

  lemma TimePasses(w: World, v: World, k: int, s: u64)
    requires Provenance(w) && w.now <= v.now
    requires v.seen == w.seen || PurgedBetween(w.seen[s := w.now], v.seen, w.now, v.now)
    requires v.net == w.net && v.built == w.built && v.clients == w.clients && v.crashed == w.crashed
    requires |v.threads| == |w.threads| && forall i :: 0 <= i < |w.threads| && i != k ==> v.threads[i] == w.threads[i]
    requires 0 <= k < |w.threads| ==>
               && !w.threads[k].Done? && Took(w.threads[k])
               && v.threads[k] == Marked(w.threads[k].syn, w.now) && s == w.threads[k].syn.sequence
               && PurgedBetween(w.seen[s := w.now], v.seen, w.now, v.now)
    ensures Provenance(v)
  {
    forall b | b in v.built
      ensures BuiltOk(v, b.h)
    {
      BuiltGrows(w, v, b.h);
    }
    forall i | 0 <= i < |v.threads|
      ensures ThreadOk(v, v.threads[i]) && MarkKept(v, v.threads[i])
    {
      assert ThreadOk(w, w.threads[i]) && MarkKept(w, w.threads[i]);
      if Took(w.threads[i]) {
        BuiltAsGrows(w, v, SYN, w.threads[i].syn);
      }
      if i != k {
        MarkedThread(w, v, w.threads[i], s);
      }
    }
    forall i | 0 <= i < |v.clients|
      ensures ClientOk(v, v.clients[i])
    {
      assert ClientOk(w, w.clients[i]);
    }
  }

  lemma AnsweredKeeps(w: World, v: World, k: nat, ack: Handshake, meaning: Decoded)
    requires Provenance(w) && k < |w.threads| && w.threads[k].Marked?
    requires IsAckFor(ack, ConfigOf(w.threads[k].syn))
    requires v.built == w.built + {Signed(ack, meaning)} && v.clients == w.clients && v.seen == w.seen && v.now == w.now
    requires v.crashed == w.crashed && v.threads == w.threads[k := Answered(w.threads[k], ack)]
    ensures Provenance(v)
  {
    Framed(w, v, k, -1);
    var t := w.threads[k];
    assert ThreadOk(w, t) && MarkKept(w, t);
    BuiltAsGrows(w, v, SYN, t.syn);
    assert v.threads[k].Done? && v.threads[k].ack == ack;
    assert BuiltOk(v, ack);
    if w.crashed {
      EmptyGrows(w, v);
    }
  }

  lemma HonestAdd(w: World, v: World, h: Handshake)
    requires Honest(w) && v.built == w.built + {Signed(h, Decode(Encoding(h)))}
    ensures Honest(v)
  {}

  lemma HonestKeeps(mac: Mac, w: World, a: Action, v: World)
    requires Honest(w) && Next(mac, w, a, v)
    ensures Honest(v)
  {
    if a.Connect? {
      HonestAdd(w, v, NewHandshake(SYN, a.interval, a.modes, a.currentMode, a.sequence, a.clock, a.nonce));
    } else if a.Answer? {
      HonestAdd(w, v, v.threads[a.k].ack);
    } else {
      assert v.built == w.built;
    }
  }

  lemma StepKeeps(mac: Mac, w: World, a: Action, v: World)
    requires Inv(mac, w) && Next(mac, w, a, v)
    ensures Provenance(v)
  {
    match a {
      case Connect(c, interval, modes, currentMode, sequence, clock, nonce) =>
        var syn := NewHandshake(SYN, interval, modes, currentMode, sequence, clock, nonce);
        ConnectKeeps(w, v, c, syn, Decode(Encoding(syn)));
      case Inject(_) =>
        Framed(w, v, -1, -1);
      case Hear(c, packet) =>
        var verdict := Judge(mac, ACK, w.clients[c].seen, w.now, packet);
        AcceptedWasBuilt(mac, w, ACK, w.clients[c].seen, packet, verdict);
        HeardKeeps(w, c, verdict);
      case Take(k, packet) =>
        var verdict := Judge(mac, SYN, w.seen, w.now, packet);
        AcceptedWasBuilt(mac, w, SYN, w.seen, packet, verdict);
        TakenKeeps(w, k, verdict);
      case Mark(k) => TimePasses(w, v, k, w.threads[k].syn.sequence);
      case Tick => TimePasses(w, v, -1, 0);
      case Answer(k, _, _) => AnsweredKeeps(w, v, k, v.threads[k].ack, Decode(Encoding(v.threads[k].ack)));
    }
  }

  lemma InvStarts(mac: Mac, w: World)
    requires Init(w)
    ensures Inv(mac, w)
  {}

  lemma InvKeeps(mac: Mac, w: World, a: Action, v: World)
    requires Inv(mac, w) && Next(mac, w, a, v)
    ensures Inv(mac, v)
  {
    StepKeeps(mac, w, a, v);
    HonestKeeps(mac, w, a, v);
    assert NoForgery(mac, v);
  }

  lemma {:induction false} Invariant(mac: Mac, worlds: seq<World>, actions: seq<Action>, i: nat)
    requires IsRun(mac, worlds, actions) && i < |worlds|
    ensures Inv(mac, worlds[i])
  {
    hide Inv, Next, Init;
    if i == 0 {
      InvStarts(mac, worlds[0]);
    } else {
      Invariant(mac, worlds, actions, i - 1);
      InvKeeps(mac, worlds[i - 1], actions[i - 1], worlds[i]);
    }
  }

  // ------------------------------------------------------------------ theorems

  /** Whatever the network does, a configuration that the server returns is that of a
      SYN some client built: same interval, same modes, and its current mode, or its
      first mode when that was zero. */
  lemma ConfigsComeFromClients(mac: Mac, worlds: seq<World>, actions: seq<Action>, i: nat, k: nat)
    requires IsRun(mac, worlds, actions) && i < |worlds|
    requires k < |worlds[i].threads| && worlds[i].threads[k].Done?
    ensures exists b ::
              && b in worlds[i].built && b.h.kind == SYN && b.meaning == Decoded(worlds[i].threads[k].syn)
              && (Carried(b.h) ==>
                    && (b.h.currentMode != 0 || |b.h.modes| > 0)
                    && worlds[i].threads[k].config == Config(b.h.switchInterval, b.h.modes, EffectiveMode(b.h)))
  {
    Invariant(mac, worlds, actions, i);
    var w := worlds[i];
    var t := w.threads[k];
    assert ThreadOk(w, t);
    var b :| b in w.built && b.h.kind == SYN && b.meaning == Decoded(t.syn);
    if Carried(b.h) {
      DecodedAgrees(b.h);
    }
  }

  lemma DecodedIsWords(data: seq<byte>)
    requires Decode(data).Decoded?
    ensures var h := Decode(data).h; Carried(h)
  {
    var h := Decode(data).h;
    forall i | 0 <= i < |h.modes|
      ensures 0 <= h.modes[i] < 0x1_0000_0000
    {
      ModeFits(data, i);
      DecodedModeIndex(data, |h.modes|, i);
    }
  }

  lemma BuiltIsCarried(w: World, kind: byte, g: Handshake)
    requires BuiltAs(w, kind, g) && Honest(w)
    ensures Carried(g)
  {
    var b :| b in w.built && b.h.kind == kind && b.meaning == Decoded(g);
    DecodedIsWords(Encoding(b.h));
  }

  predicate Conveys(ack: Handshake, config: Config) {
    && ack.kind == ACK && ack.switchInterval == config.interval && ack.modes == config.modes
    && (config.currentMode != 0 ==> ack.currentMode == config.currentMode)
  }

  lemma AckIsCarried(ack: Handshake, syn: Handshake)
    requires Carried(syn) && IsAckFor(ack, ConfigOf(syn))
    ensures Carried(ack)
    ensures syn.currentMode != 0 ==> EffectiveMode(ack) == syn.currentMode
  {
    DivUnique(|syn.modes|, 256, 0, |syn.modes|);
  }

  lemma AckConveys(ack: Handshake, got: Handshake, syn: Handshake)
    requires Carried(syn) && IsAckFor(ack, ConfigOf(syn))
    requires Decode(Encoding(ack)) == Decoded(got)
    ensures Conveys(got, ConfigOf(syn))
  {
    AckIsCarried(ack, syn);
    DecodedAgrees(ack);
  }

  /** An ACK that a client accepts is the answer of a server run that had accepted a
      SYN of some client, and it carries that run's configuration. */
  lemma AcksComeFromServer(mac: Mac, worlds: seq<World>, actions: seq<Action>, i: nat, c: nat) returns (k: nat)
    requires IsRun(mac, worlds, actions) && i < |worlds|
    requires c < |worlds[i].clients| && worlds[i].clients[c].Established?
    ensures k < |worlds[i].threads| && worlds[i].threads[k].Done?
    ensures BuiltAs(worlds[i], SYN, worlds[i].threads[k].syn)
    ensures Conveys(worlds[i].clients[c].ack, worlds[i].threads[k].config)
  {
    Invariant(mac, worlds, actions, i);
    var w := worlds[i];
    var got := w.clients[c].ack;
    assert ClientOk(w, w.clients[c]);
    var b :| b in w.built && b.h.kind == ACK && b.meaning == Decoded(got);
    var ack := b.h;
    assert BuiltOk(w, ack);
    k :| 0 <= k < |w.threads| && w.threads[k].Done? && w.threads[k].ack == ack;
    var t := w.threads[k];
    assert ThreadOk(w, t);
    BuiltIsCarried(w, SYN, t.syn);
    AckConveys(ack, got, t.syn);
  }

  /** No handshake is taken for one of the other type, in any state. */
  lemma TypesNeverConfused(mac: Mac, seen: map<u64, int>, now: int, h: Handshake, expected: byte)
    requires |Packet(mac, h)| <= BUFFER_LEN && |mac(Encoding(h))| == SIGNATURE_LEN
    requires h.kind != expected
    ensures !Judge(mac, expected, seen, now, Packet(mac, h)).Accept?
  {
    var r := Cut(Packet(mac, h));
    assert r[..|r| - SIGNATURE_LEN] == Encoding(h);
    if Decode(Encoding(h)).Decoded? {
      DecodedKind(h);
    }
  }

  /** The verdict rests on the first 4096 bytes: the last 32 of them sign the rest. */
  lemma VerdictOnSigned(mac: Mac, expected: byte, seen: map<u64, int>, now: int, packet: seq<byte>)
    ensures |packet| > 4096 ==>
              Judge(mac, expected, seen, now, packet) == Judge(mac, expected, seen, now, packet[..4096])
    ensures |packet| < 32 ==> Judge(mac, expected, seen, now, packet) == Refuse(AuthFailed)
    ensures 32 <= |packet| <= 4096 ==>
              Judge(mac, expected, seen, now, packet) ==
              if mac(packet[..|packet| - 32]) != packet[|packet| - 32..] then Refuse(AuthFailed)
              else match Decode(packet[..|packet| - 32])
                   case Panics => Panic
                   case Rejected(error) => Refuse(BadPacket(error))
                   case Decoded(h) =>
                     if h.kind != expected then Refuse(AuthFailed)
                     else if h.sequence in seen && now - seen[h.sequence] < 30_000_000_000 then Refuse(HandshakeReplay)
                     else Accept(h)
  {
    hide Decode;
  }

  /** Magic, type and signature where they are on the wire. */
  lemma PacketLayout(mac: Mac, h: Handshake)
    ensures var p, n := Packet(mac, h), |Encoding(h)|;
            && |p| == n + |mac(Encoding(h))| && n >= 11
            && p[..4] == h.magic && p[4] == h.kind && p[5] == h.version
            && p[..n] == Encoding(h) && p[n..] == mac(Encoding(h))
  {
    var e := Encoding(h);
    assert e == Header(h) + (EncodedModes(h.modes) + if h.currentMode != 0 then Tail(h) else []);
    assert e[..4] == h.magic && e[4] == h.kind && e[5] == h.version;
  }

  /** A packet for at most 255 modes is at most 1100 bytes: the buffer never cuts it,
      its signature verifies, and a carried one with a current mode is judged on
      exactly what was built. */
  lemma HonestPacketArrivesWhole(mac: Mac, expected: byte, seen: map<u64, int>, now: int, h: Handshake)
    requires IsMac(mac) && |h.modes| <= 255
    ensures |Packet(mac, h)| <= 1100 && Cut(Packet(mac, h)) == Packet(mac, h)
    ensures Authentic(mac, Packet(mac, h))
    ensures Judge(mac, expected, seen, now, Packet(mac, h)) == Judged(expected, seen, now, Decode(Encoding(h)))
    ensures Carried(h) && Verified(h) && h.currentMode != 0 && h.kind == expected ==>
              Judge(mac, expected, seen, now, Packet(mac, h)) ==
              if Replays(seen, h.sequence, HANDSHAKE_WINDOW, now) then Refuse(HandshakeReplay) else Accept(h)
  {
    EncodedLength(h);
    var p := Packet(mac, h);
    assert p[..|p| - SIGNATURE_LEN] == Encoding(h);
    assert p[|p| - SIGNATURE_LEN..] == mac(Encoding(h));
    if Carried(h) {
      DecodedAgrees(h);
    }
  }

  lemma HeldStays(mac: Mac, w: World, a: Action, v: World, k: nat)
    requires Next(mac, w, a, v) && k < |w.threads| && !w.threads[k].Idle?
    ensures k < |v.threads| && !v.threads[k].Idle?
    ensures Took(v.threads[k]) ==> Took(w.threads[k]) && v.threads[k].syn == w.threads[k].syn
  {
    hide Judge, Decode, Encoding, NoForgery;
  }

  /** What a connection holds once it has taken a packet is what that packet was judged
      to be, from then on. */
  lemma {:induction false} HoldsWhatItTook(mac: Mac, worlds: seq<World>, actions: seq<Action>, j: nat, i: nat,
                                           k: nat, packet: seq<byte>)
    requires IsRun(mac, worlds, actions) && j < i < |worlds| && actions[j] == Take(k, packet)
    ensures k < |worlds[i].threads| && (worlds[i].threads[k].Idle? ==> worlds[i].crashed)
    ensures Took(worlds[i].threads[k]) ==>
              Judge(mac, SYN, worlds[j].seen, worlds[j].now, packet) == Accept(worlds[i].threads[k].syn)
  {
    hide Judge, Decode, Encoding, NoForgery;
    assert Next(mac, worlds[i - 1], actions[i - 1], worlds[i]);
    if j < i - 1 {
      HoldsWhatItTook(mac, worlds, actions, j, i - 1, k, packet);
      assert !worlds[i - 1].crashed;
      hide Next;
      HeldStays(mac, worlds[i - 1], actions[i - 1], worlds[i], k);
    }
  }

  /** So a connection that took the packet of a handshake holds what that decodes to. */
  lemma TookWhatWasSent(mac: Mac, worlds: seq<World>, actions: seq<Action>, j: nat, i: nat, k: nat, h: Handshake)
    requires IsMac(mac) && |h.modes| <= 255
    requires IsRun(mac, worlds, actions) && j < i < |worlds| && actions[j] == Take(k, Packet(mac, h))
    ensures k < |worlds[i].threads|
    ensures Took(worlds[i].threads[k]) ==> Decode(Encoding(h)) == Decoded(worlds[i].threads[k].syn)
  {
    hide IsRun, Judge, Decode, Encoding;
    HoldsWhatItTook(mac, worlds, actions, j, i, k, Packet(mac, h));
    HonestPacketArrivesWhole(mac, SYN, worlds[j].seen, worlds[j].now, h);
  }

  lemma AcceptedNotReplayed(mac: Mac, expected: byte, seen: map<u64, int>, now: int, packet: seq<byte>)
    requires Judge(mac, expected, seen, now, packet).Accept?
    ensures !Replays(seen, Judge(mac, expected, seen, now, packet).h.sequence, HANDSHAKE_WINDOW, now)
  {}

  /** A sequence number passes the server's check only if every thread that marked it
      did so at least thirty seconds before. */
  lemma ReplayRefused(mac: Mac, worlds: seq<World>, actions: seq<Action>, i: nat, k: nat, j: nat)
    requires IsRun(mac, worlds, actions) && i < |actions|
    requires actions[i].Take? && actions[i].k == k && worlds[i + 1].threads[k].Checked?
    requires j < |worlds[i].threads| && HasMark(worlds[i].threads[j])
    requires worlds[i].threads[j].syn.sequence == worlds[i + 1].threads[k].syn.sequence
    ensures worlds[i].now - worlds[i].threads[j].at >= 30_000_000_000
  {
    hide Judge, Decode, Encoding, NoForgery;
    Invariant(mac, worlds, actions, i);
    var w := worlds[i];
    assert MarkKept(w, w.threads[j]);
    assert Next(mac, w, actions[i], worlds[i + 1]);
    AcceptedNotReplayed(mac, SYN, w.seen, w.now, actions[i].packet);
  }

  // ----------------------------------------------------- refusals as a replay

  ghost predicate MarkedBy(w: World, s: u64, at: int) {
    exists k :: 0 <= k < |w.threads| && HasMark(w.threads[k]) && w.threads[k].syn.sequence == s && w.threads[k].at == at
  }

  ghost predicate SeenMarked(w: World) {
    forall s :: s in w.seen ==> MarkedBy(w, s, w.seen[s])
  }

  predicate KeepsMark(t: Thread, u: Thread) {
    HasMark(t) ==> HasMark(u) && u.syn == t.syn && u.at == t.at
  }

  lemma ThreadsKeepMarks(mac: Mac, w: World, a: Action, v: World)
    requires Next(mac, w, a, v)
    ensures |v.threads| == |w.threads|
    ensures forall k :: 0 <= k < |w.threads| ==> KeepsMark(w.threads[k], v.threads[k])
  {
    hide Judge, Decode, Encoding, NoForgery;
  }

  /** Marks stay on their threads. */
  lemma MarkStays(mac: Mac, w: World, a: Action, v: World, s: u64, at: int)
    requires Next(mac, w, a, v) && MarkedBy(w, s, at)
    ensures MarkedBy(v, s, at)
  {
    ThreadsKeepMarks(mac, w, a, v);
    var k :| 0 <= k < |w.threads| && HasMark(w.threads[k]) && w.threads[k].syn.sequence == s && w.threads[k].at == at;
    assert KeepsMark(w.threads[k], v.threads[k]);
  }

  /** An entry is left over, or was made by the thread that marks. */
  lemma SeenFrom(mac: Mac, w: World, a: Action, v: World, s: u64)
    requires Next(mac, w, a, v) && s in v.seen
    ensures (s in w.seen && w.seen[s] == v.seen[s]) || MarkedBy(v, s, v.seen[s])
  {
    hide Judge, Decode, Encoding, NoForgery;
    if a.Mark? && s == w.threads[a.k].syn.sequence {
      assert HasMark(v.threads[a.k]) && v.threads[a.k].at == v.seen[s];
    }
  }

  lemma SeenKeeps(mac: Mac, w: World, a: Action, v: World)
    requires Next(mac, w, a, v) && SeenMarked(w)
    ensures SeenMarked(v)
  {
    hide Judge, Decode, Encoding, NoForgery;
    forall s | s in v.seen
      ensures MarkedBy(v, s, v.seen[s])
    {
      SeenFrom(mac, w, a, v, s);
      hide Next;
      if s in w.seen && w.seen[s] == v.seen[s] {
        MarkStays(mac, w, a, v, s, w.seen[s]);
      }
    }
  }

  lemma {:induction false} SeenInvariant(mac: Mac, worlds: seq<World>, actions: seq<Action>, i: nat)
    requires IsRun(mac, worlds, actions) && i < |worlds|
    ensures SeenMarked(worlds[i])
  {
    if i > 0 {
      SeenInvariant(mac, worlds, actions, i - 1);
      SeenKeeps(mac, worlds[i - 1], actions[i - 1], worlds[i]);
    }
  }

  /** Some thread marked the number less than thirty seconds ago. */
  ghost predicate MarkedLately(w: World, s: u64) {
    exists k :: 0 <= k < |w.threads| && HasMark(w.threads[k]) && w.threads[k].syn.sequence == s
                && w.now - w.threads[k].at < 30_000_000_000
  }

  lemma ReplaysExactly(mac: Mac, worlds: seq<World>, actions: seq<Action>, i: nat, s: u64)
    requires IsRun(mac, worlds, actions) && i < |worlds|
    ensures Replays(worlds[i].seen, s, HANDSHAKE_WINDOW, worlds[i].now) <==> MarkedLately(worlds[i], s)
  {
    Invariant(mac, worlds, actions, i);
    SeenInvariant(mac, worlds, actions, i);
    var w := worlds[i];
    if s in w.seen {
      assert MarkedBy(w, s, w.seen[s]);
    }
    if MarkedLately(w, s) {
      var k :| 0 <= k < |w.threads| && HasMark(w.threads[k]) && w.threads[k].syn.sequence == s
               && w.now - w.threads[k].at < 30_000_000_000;
      assert MarkKept(w, w.threads[k]);
    }
  }

  lemma ReplayOnly(mac: Mac, expected: byte, seen: map<u64, int>, now: int, packet: seq<byte>, h: Handshake)
    requires Judge(mac, expected, map[], now, packet) == Accept(h)
    ensures Judge(mac, expected, seen, now, packet) ==
            if Replays(seen, h.sequence, HANDSHAKE_WINDOW, now) then Refuse(HandshakeReplay) else Accept(h)
  {}

  /** In every reachable state, a packet that is otherwise acceptable is refused as a
      replay if and only if some thread marked its number less than thirty seconds ago. */
  lemma RefusedExactly(mac: Mac, worlds: seq<World>, actions: seq<Action>, i: nat, packet: seq<byte>, syn: Handshake)
    requires IsRun(mac, worlds, actions) && i < |worlds|
    requires Judge(mac, SYN, map[], worlds[i].now, packet) == Accept(syn)
    ensures Judge(mac, SYN, worlds[i].seen, worlds[i].now, packet) ==
            if MarkedLately(worlds[i], syn.sequence) then Refuse(HandshakeReplay) else Accept(syn)
  {
    ReplaysExactly(mac, worlds, actions, i, syn.sequence);
    ReplayOnly(mac, SYN, worlds[i].seen, worlds[i].now, packet, syn);
  }

  /** A panic in the decoder needs a key holder that signed an empty handshake. */
  lemma CrashNeedsEmptyHandshake(mac: Mac, worlds: seq<World>, actions: seq<Action>, i: nat)
    requires IsRun(mac, worlds, actions) && i < |worlds| && worlds[i].crashed
    ensures exists b :: b in worlds[i].built && b.h.modes == [] && b.h.currentMode == 0
  {
    Invariant(mac, worlds, actions, i);
  }
}
