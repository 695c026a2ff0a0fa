/** When the ACK that a client accepts answers the client's own request. */
module OwnAck {
  import opened Bytes
  import opened HandshakeCodec
  import opened HandshakeLaws
  import opened HandshakeProtocol
  import opened HandshakeRuns

  predicate Carriable(r: Request) {
    |r.modes| <= 255 && AreWords(r.modes)
  }

  /** The configuration a request stands for; without a tail the first mode counts. */
  function Asked(r: Request): Config {
    var word := ModeWord(r.currentMode);
    Config(r.interval, r.modes, if word != 0 then word else if r.modes != [] then r.modes[0] else 0)
  }

  /** The configuration that a client put into its own SYN. */
  function AskedIn(syn: Handshake): Config {
    Config(syn.switchInterval, syn.modes,
           if syn.currentMode != 0 then syn.currentMode else if syn.modes != [] then syn.modes[0] else 0)
  }

  ghost predicate OwnConfig(c: Client) {
    c.Established? ==> ConfigOf(c.ack) == AskedIn(c.sent)
  }

  ghost predicate AllOwn(w: World) {
    forall c :: 0 <= c < |w.clients| ==> OwnConfig(w.clients[c])
  }

  function RequestIn(a: Action): Request
    requires a.Connect?
  {
    Request(a.interval, a.modes, a.currentMode)
  }

  ghost predicate AsksOnly(actions: seq<Action>, requests: set<Request>) {
    forall i :: 0 <= i < |actions| && actions[i].Connect? ==> RequestIn(actions[i]) in requests
  }

  /** What a SYN for a request without a tail sums to. */
  function TaillessSum(kind: byte, r: Request): byte
    requires r.modes != []
  {
    FoldXor(0, MAGIC + [kind, VERSION] + BE(4, r.interval) + [ByteOf(|r.modes|)]
               + LowBytes(r.modes) + BE(4, ModeWord(r.modes[0])))
  }

  /** A server accepts the request's SYN and a client accepts the ACK for it: the SYN
      has a tail, or it sums to zero without one and its first mode is not zero. */
  predicate Answerable(r: Request) {
    ModeWord(r.currentMode) != 0 || (r.modes != [] && r.modes[0] != 0 && TaillessSum(SYN, r) == 0)
  }

  predicate IsSynFor(h: Handshake, r: Request) {
    && Verified(h) && h.kind == SYN && h.switchInterval == r.interval && h.modes == r.modes
    && h.modesCount == ByteOf(|r.modes|) && h.currentMode == ModeWord(r.currentMode)
  }

  lemma SynIsFor(r: Request, sequence: u64, clock: u64, nonce: Nonce)
    ensures IsSynFor(SynOf(r, sequence, clock, nonce), r)
  {}

  lemma SynFacts(h: Handshake, r: Request)
    requires IsSynFor(h, r) && Carriable(r)
    ensures Carried(h) && AskedIn(h) == Asked(r)
  {
    DivUnique(|r.modes|, 256, 0, |r.modes|);
  }

  // ------------------------------------------------- what a run can have built

  ghost predicate Known(h: Handshake, requests: set<Request>) {
    exists r :: r in requests && IsSynFor(h, r)
  }

  ghost predicate BuiltKnown(w: World, requests: set<Request>) {
    && (forall b :: b in w.built ==> Verified(b.h) && (b.h.kind == SYN ==> Known(b.h, requests)))
    && (forall c :: 0 <= c < |w.clients| ==>
          (w.clients[c].Waiting? || w.clients[c].Established? ==> Known(w.clients[c].sent, requests)))
  }

  lemma KnownKeeps(mac: Mac, w: World, a: Action, v: World, requests: set<Request>)
    requires Next(mac, w, a, v) && BuiltKnown(w, requests)
    requires a.Connect? ==> RequestIn(a) in requests
    ensures BuiltKnown(v, requests)
  {
    hide Encoding, Decode, Checksum, Judge;
    if a.Connect? {
      SynIsFor(RequestIn(a), a.sequence, a.clock, a.nonce);
    }
  }

  lemma {:induction false} KnownInvariant(mac: Mac, worlds: seq<World>, actions: seq<Action>,
                                          requests: set<Request>, i: nat)
    requires IsRun(mac, worlds, actions) && AsksOnly(actions, requests) && i < |worlds|
    ensures BuiltKnown(worlds[i], requests)
  {
    hide Encoding, Decode, Checksum, Judge;
    if i > 0 {
      KnownInvariant(mac, worlds, actions, requests, i - 1);
      KnownKeeps(mac, worlds[i - 1], actions[i - 1], worlds[i], requests);
    }
  }

  // ------------------------------------------------- whose ACK a client holds

  lemma SumOf(h: Handshake, r: Request)
    requires Verified(h) && Carriable(r) && r.modes != []
    requires h.switchInterval == r.interval && h.modes == r.modes && h.modesCount == ByteOf(|r.modes|)
    ensures FoldXor(0, Header(h) + LowBytes(h.modes) + BE(4, h.modes[0])) == TaillessSum(h.kind, r)
  {
    hide Checksum;
    DivUnique(r.modes[0], 0x1_0000_0000, 0, r.modes[0]);
    assert Header(h) == MAGIC + [h.kind, VERSION] + BE(4, r.interval) + [ByteOf(|r.modes|)];
  }

  lemma SumsDiffer(r: Request)
    requires r.modes != []
    ensures TaillessSum(SYN, r) != TaillessSum(ACK, r)
  {
    var rest := BE(4, r.interval) + [ByteOf(|r.modes|)] + LowBytes(r.modes) + BE(4, ModeWord(r.modes[0]));
    var s, t := MAGIC + [SYN, VERSION] + rest, MAGIC + [ACK, VERSION] + rest;
    assert s == MAGIC + [SYN, VERSION] + BE(4, r.interval) + [ByteOf(|r.modes|)] + LowBytes(r.modes)
                + BE(4, ModeWord(r.modes[0]));
    assert t == MAGIC + [ACK, VERSION] + BE(4, r.interval) + [ByteOf(|r.modes|)] + LowBytes(r.modes)
                + BE(4, ModeWord(r.modes[0]));
    FoldOneDifference(0, s, t, 4);
  }

  /** A SYN that is accepted without a tail sums to zero, and then an ACK without a
      tail for the same configuration does not. */
  lemma NotBothTailless(syn: Handshake, ack: Handshake, r: Request)
    requires IsSynFor(syn, r) && Carriable(r) && r.modes != [] && syn.currentMode == 0
    requires Verified(ack) && ack.kind == ACK && ack.currentMode == 0
    requires ack.switchInterval == r.interval && ack.modes == r.modes && ack.modesCount == ByteOf(|r.modes|)
    ensures !(Decode(Encoding(syn)).Decoded? && Decode(Encoding(ack)).Decoded?)
  {
    hide Encoding, Decode, Checksum;
    DivUnique(|r.modes|, 256, 0, |r.modes|);
    TaillessAccepted(syn);
    TaillessAccepted(ack);
    SumOf(syn, r);
    SumOf(ack, r);
    SumsDiffer(r);
  }

  /** A SYN that the server took for `taken`, and an ACK for that which a client took. */
  lemma GrantFacts(syn: Handshake, taken: Handshake, ack: Handshake, got: Handshake, r: Request)
    requires IsSynFor(syn, r) && Carriable(r) && Decode(Encoding(syn)) == Decoded(taken)
    requires Verified(ack) && IsAckFor(ack, ConfigOf(taken)) && Decode(Encoding(ack)) == Decoded(got)
    ensures Answerable(r) && ConfigOf(taken) == Asked(r) && ConfigOf(got) == Asked(r)
  {
    hide Encoding, Decode, Checksum;
    SynFacts(syn, r);
    DecodedAgrees(syn);
    DecodedIsWords(Encoding(syn));
    AckIsCarried(ack, taken);
    DivUnique(taken.currentMode, 0x1_0000_0000, 0, taken.currentMode);
    if taken.currentMode == 0 {
      NotBothTailless(syn, ack, r);
    } else {
      DecodedAgrees(ack);
      if syn.currentMode == 0 {
        TaillessAccepted(syn);
        SumOf(syn, r);
      }
    }
  }

  /** In every run, the ACK that a client holds is for the configuration of an
      answerable request, somebody's. */
  lemma AckIsSomebodys(mac: Mac, worlds: seq<World>, actions: seq<Action>, requests: set<Request>, i: nat, c: nat)
    returns (mine: Request, theirs: Request)
    requires IsRun(mac, worlds, actions) && AsksOnly(actions, requests) && i < |worlds|
    requires forall r :: r in requests ==> Carriable(r)
    requires c < |worlds[i].clients| && worlds[i].clients[c].Established?
    ensures mine in requests && IsSynFor(worlds[i].clients[c].sent, mine)
    ensures theirs in requests && Answerable(theirs) && ConfigOf(worlds[i].clients[c].ack) == Asked(theirs)
  {
    hide Encoding, Decode, Checksum, Judge, Next, Init, NoForgery;
    Invariant(mac, worlds, actions, i);
    KnownInvariant(mac, worlds, actions, requests, i);
    var w := worlds[i];
    var client := w.clients[c];
    assert ClientOk(w, client);
    mine :| mine in requests && IsSynFor(client.sent, mine);
    var b :| b in w.built && b.h.kind == ACK && b.meaning == Decoded(client.ack);
    assert BuiltOk(w, b.h);
    var k :| 0 <= k < |w.threads| && w.threads[k].Done? && w.threads[k].ack == b.h;
    var t := w.threads[k];
    assert ThreadOk(w, t);
    var s :| s in w.built && s.h.kind == SYN && s.meaning == Decoded(t.syn);
    theirs :| theirs in requests && IsSynFor(s.h, theirs);
    GrantFacts(s.h, t.syn, b.h, client.ack, theirs);
  }

  // ------------------------------------------------------ the run that mixes two up

  /** What a server reads of an answerable request's SYN. */
  lemma SynTaken(mac: Mac, r: Request, syn: Handshake) returns (got: Handshake)
    requires IsMac(mac) && Carriable(r) && Answerable(r) && IsSynFor(syn, r)
    ensures Judge(mac, SYN, map[], 0, Packet(mac, syn)) == Accept(got)
    ensures ConfigOf(got) == Asked(r) && got.currentMode != 0 && Carried(got)
  {
    hide Encoding, Decode, Checksum;
    SynFacts(syn, r);
    HonestPacketArrivesWhole(mac, SYN, map[], 0, syn);
    DecodedAgrees(syn);
    if syn.currentMode == 0 {
      TaillessAccepted(syn);
      SumOf(syn, r);
    }
    got := Decode(Encoding(syn)).h;
    DecodedIsWords(Encoding(syn));
  }

  /** The ACK that answers a configuration with a current mode is accepted. */
  lemma AckTaken(mac: Mac, taken: Handshake, next: u64, clock: u64, nonce: Nonce, ack: Handshake)
    requires IsMac(mac) && Carried(taken) && taken.currentMode != 0
    requires ack == AckFor(ConfigOf(taken), next, clock, nonce)
    ensures Judge(mac, ACK, map[], 0, Packet(mac, ack)) == Accept(ack)
    ensures ConfigOf(ack) == ConfigOf(taken)
  {
    hide Encoding, Decode, Checksum;
    DivUnique(|taken.modes|, 256, 0, |taken.modes|);
    DivUnique(taken.currentMode, 0x1_0000_0000, 0, taken.currentMode);
    HonestPacketArrivesWhole(mac, ACK, map[], 0, ack);
  }

  /** A client waits with an empty cache, a connection is idle, and a packet is there. */
  ghost predicate Ready(mac: Mac, w: World, p: seq<byte>, taken: Handshake) {
    && !w.crashed && w.now == 0 && w.seen == map[] && w.threads == [Idle] && p in w.net && HonestNet(mac, w)
    && |w.clients| > 0 && w.clients[0].Waiting? && w.clients[0].seen == map[]
    && Judge(mac, SYN, map[], 0, p) == Accept(taken)
    && Carried(taken) && taken.currentMode != 0
  }

  /** The server takes the packet, marks it and answers. */
  lemma ServeOnce(mac: Mac, worlds: seq<World>, actions: seq<Action>, w: World, p: seq<byte>, taken: Handshake)
    returns (longer: seq<World>, more: seq<Action>, v: World, ack: Handshake)
    requires IsMac(mac) && Ends(mac, worlds, actions, w) && Ready(mac, w, p, taken)
    ensures Ends(mac, longer, more, v) && NoForgery(mac, v)
    ensures more == actions + [Take(0, p)] + [Mark(0)] + [Answer(0, 0, Zeros(16))]
    ensures !v.crashed && v.now == 0 && v.clients == w.clients && Packet(mac, ack) in v.net
    ensures ConfigOf(ack) == ConfigOf(taken) && Judge(mac, ACK, map[], 0, Packet(mac, ack)) == Accept(ack)
  {
    hide Encoding, Decode, Checksum, Judge;
    Unforged(mac, worlds, actions, w);
    TakeStep(mac, w, 0, p, taken);
    var u := WithThread(w, 0, Checked(taken));
    Extend(mac, worlds, actions, w, Take(0, p), u);
    SameNet(mac, w, u);
    HonestSame(mac, w, u);
    MarkStep(mac, u, 0);
    var t := AfterMark(u, 0);
    Extend(mac, worlds + [u], actions + [Take(0, p)], u, Mark(0), t);
    HonestSame(mac, u, t);
    var next := (t.sequence + 1) % 0x1_0000_0000_0000_0000;
    ack := AckFor(ConfigOf(taken), next, 0, Zeros(16));
    AnswerStep(mac, t, 0, 0, Zeros(16), next, ack);
    v := AfterAnswer(mac, t, 0, next, ack);
    Extend(mac, worlds + [u] + [t], actions + [Take(0, p)] + [Mark(0)], t, Answer(0, 0, Zeros(16)), v);
    HonestUnforged(mac, v);
    AckTaken(mac, taken, next, 0, Zeros(16), ack);
    longer := worlds + [u] + [t] + [v];
    more := actions + [Take(0, p)] + [Mark(0)] + [Answer(0, 0, Zeros(16))];
  }

  lemma ServeAndHear(mac: Mac, worlds: seq<World>, actions: seq<Action>, w: World, p: seq<byte>, taken: Handshake)
    returns (longer: seq<World>, more: seq<Action>, v: World)
    requires IsMac(mac) && Ends(mac, worlds, actions, w) && Ready(mac, w, p, taken)
    ensures Ends(mac, longer, more, v)
    ensures |more| >= |actions| && more[..|actions|] == actions
    ensures forall i :: |actions| <= i < |more| ==> !more[i].Connect?
    ensures |v.clients| == |w.clients| && v.clients[0].Established? && v.clients[0].sent == w.clients[0].sent
    ensures ConfigOf(v.clients[0].ack) == ConfigOf(taken)
  {
    hide Encoding, Decode, Checksum, Judge;
    var u, ack;
    longer, more, u, ack := ServeOnce(mac, worlds, actions, w, p, taken);
    HearStep(mac, u, 0, Packet(mac, ack), ack);
    v := u.(clients := u.clients[0 := Established(u.clients[0].sent, ack)]);
    Extend(mac, longer, more, u, Hear(0, Packet(mac, ack)), v);
    longer, more := longer + [v], more + [Hear(0, Packet(mac, ack))];
  }

  /** Two clients send their SYNs, and the second one's is about to be taken. */
  lemma TwoConnect(mac: Mac, mine: Request, theirs: Request)
    returns (worlds: seq<World>, actions: seq<Action>, w: World, taken: Handshake, p: seq<byte>)
    requires IsMac(mac) && Carriable(mine) && Carriable(theirs) && Answerable(theirs)
    ensures Ends(mac, worlds, actions, w) && Ready(mac, w, p, taken) && ConfigOf(taken) == Asked(theirs)
    ensures AsksOnly(actions, {mine, theirs}) && IsSynFor(w.clients[0].sent, mine)
  {
    hide Encoding, Decode, Checksum, Judge;
    var second := SynOf(theirs, 2, 0, Zeros(16));
    SynIsFor(mine, 1, 0, Zeros(16));
    SynIsFor(theirs, 2, 0, Zeros(16));
    var u;
    worlds, actions, u := FirstConnect(mac, Dawn([Fresh, Fresh], [Idle]), 0, mine, 1, 0, Zeros(16));
    ConnectStep(mac, u, 1, theirs, 2, 0, Zeros(16), second);
    w := AfterConnect(mac, u, 1, second);
    Extend(mac, worlds, actions, u, ConnectFor(1, theirs, 2, 0, Zeros(16)), w);
    worlds, actions := worlds + [w], actions + [ConnectFor(1, theirs, 2, 0, Zeros(16))];
    taken := SynTaken(mac, theirs, second);
    p := Packet(mac, second);
  }

  /** For any two carriable requests, the second answerable, there is a run at whose
      end the client with the first holds an ACK for the second's configuration. */
  lemma OthersAckAccepted(mac: Mac, mine: Request, theirs: Request)
    returns (worlds: seq<World>, actions: seq<Action>, w: World)
    requires IsMac(mac) && Carriable(mine) && Carriable(theirs) && Answerable(theirs)
    ensures Ends(mac, worlds, actions, w) && AsksOnly(actions, {mine, theirs})
    ensures |w.clients| > 0 && w.clients[0].Established? && AskedIn(w.clients[0].sent) == Asked(mine)
    ensures ConfigOf(w.clients[0].ack) == Asked(theirs)
  {
    hide Encoding, Decode, Checksum, Judge;
    var taken, p;
    worlds, actions, w, taken, p := TwoConnect(mac, mine, theirs);
    SynFacts(w.clients[0].sent, mine);
    ghost var before := actions;
    worlds, actions, w := ServeAndHear(mac, worlds, actions, w, p, taken);
    forall i | 0 <= i < |actions| && actions[i].Connect?
      ensures RequestIn(actions[i]) in {mine, theirs}
    {
      assert actions[i] == actions[..|before|][i];
    }
  }

  ghost predicate OneConfigAsked(requests: set<Request>) {
    forall a, b :: a in requests && b in requests && Answerable(b) ==> Asked(a) == Asked(b)
  }

  ghost predicate AlwaysOwn(mac: Mac, requests: set<Request>) {
    forall worlds, actions :: IsRun(mac, worlds, actions) && AsksOnly(actions, requests) ==> AllOwn(worlds[|actions|])
  }

  lemma OwnIfOneConfig(mac: Mac, requests: set<Request>, worlds: seq<World>, actions: seq<Action>)
    requires forall r :: r in requests ==> Carriable(r)
    requires IsRun(mac, worlds, actions) && AsksOnly(actions, requests) && OneConfigAsked(requests)
    ensures AllOwn(worlds[|actions|])
  {
    hide Encoding, Decode, Checksum, Judge;
    var w := worlds[|actions|];
    forall c | 0 <= c < |w.clients|
      ensures OwnConfig(w.clients[c])
    {
      if w.clients[c].Established? {
        var mine, theirs := AckIsSomebodys(mac, worlds, actions, requests, |actions|, c);
        SynFacts(w.clients[c].sent, mine);
      }
    }
  }

  /** An accepted ACK is for the client's own configuration in every run over a set of
      requests if and only if all of them ask for the configuration of each answerable
      one: a client that shares the key with one that asks for another can be misled. */
  lemma OwnAckExactly(mac: Mac, requests: set<Request>)
    requires IsMac(mac) && forall r :: r in requests ==> Carriable(r)
    ensures AlwaysOwn(mac, requests) <==> OneConfigAsked(requests)
  {
    hide Encoding, Decode, Checksum, Judge;
    if OneConfigAsked(requests) {
      forall worlds: seq<World>, actions: seq<Action> | IsRun(mac, worlds, actions) && AsksOnly(actions, requests)
        ensures AllOwn(worlds[|actions|])
      {
        OwnIfOneConfig(mac, requests, worlds, actions);
      }
    } else {
      var a, b :| a in requests && b in requests && Answerable(b) && Asked(a) != Asked(b);
      var worlds, actions, w := OthersAckAccepted(mac, a, b);
      assert AsksOnly(actions, requests);
      assert !OwnConfig(w.clients[0]);
    }
  }
}
