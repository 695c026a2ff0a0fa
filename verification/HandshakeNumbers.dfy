/** The sequence numbers of the handshake protocol: what a server marks is what a
    client was told to send, and different numbers are accepted side by side. */
module HandshakeNumbers {
  import opened Bytes
  import opened HandshakeCodec
  import opened HandshakeLaws
  import opened HandshakeProtocol
  import opened HandshakeRuns

  /** The SYN that a connecting client builds. */
  function SynIn(a: Action): Handshake
    requires a.Connect?
  {
    NewHandshake(SYN, a.interval, a.modes, a.currentMode, a.sequence, a.clock, a.nonce)
  }

  ghost predicate SentBy(actions: seq<Action>, h: Handshake) {
    exists i :: 0 <= i < |actions| && actions[i].Connect? && h == SynIn(actions[i])
  }

  ghost predicate SynsSent(w: World, actions: seq<Action>) {
    forall b :: b in w.built && b.h.kind == SYN ==> SentBy(actions, b.h)
  }

  lemma SentByLonger(actions: seq<Action>, a: Action, h: Handshake)
    requires SentBy(actions, h)
    ensures SentBy(actions + [a], h)
  {
    var i :| 0 <= i < |actions| && actions[i].Connect? && h == SynIn(actions[i]);
    assert (actions + [a])[i] == actions[i];
  }

  /** What a step adds to the handshakes built. */
  lemma BuiltNext(mac: Mac, w: World, a: Action, v: World, b: Signed)
    requires Next(mac, w, a, v) && b in v.built && b.h.kind == SYN
    ensures b in w.built || (a.Connect? && b.h == SynIn(a))
  {
    hide Encoding, Decode, Checksum, Judge, NoForgery;
  }

  lemma SynsSentKeeps(mac: Mac, w: World, a: Action, v: World, actions: seq<Action>)
    requires Next(mac, w, a, v) && SynsSent(w, actions)
    ensures SynsSent(v, actions + [a])
  {
    hide Next;
    forall b | b in v.built && b.h.kind == SYN
      ensures SentBy(actions + [a], b.h)
    {
      BuiltNext(mac, w, a, v, b);
      if b in w.built {
        SentByLonger(actions, a, b.h);
      } else {
        assert (actions + [a])[|actions|] == a;
      }
    }
  }

  lemma {:induction false} SynsSentInvariant(mac: Mac, worlds: seq<World>, actions: seq<Action>, i: nat)
    requires IsRun(mac, worlds, actions) && i < |worlds|
    ensures SynsSent(worlds[i], actions[..i])
  {
    if i > 0 {
      SynsSentInvariant(mac, worlds, actions, i - 1);
      StepOf(mac, worlds, actions, i - 1, worlds[i - 1], actions[i - 1], worlds[i]);
      hide Next;
      SynsSentKeeps(mac, worlds[i - 1], actions[i - 1], worlds[i], actions[..i - 1]);
      assert actions[..i] == actions[..i - 1] + [actions[i - 1]];
    }
  }

  predicate HasTail(modes: seq<int>, currentMode: int) {
    |modes| <= 255 && AreWords(modes) && currentMode % 0x1_0000_0000 != 0
  }

  ghost predicate AskWithTail(actions: seq<Action>) {
    forall i :: 0 <= i < |actions| && actions[i].Connect? ==> HasTail(actions[i].modes, actions[i].currentMode)
  }

  lemma TailArrives(h: Handshake, got: Handshake, a: Action)
    requires a.Connect? && h == SynIn(a) && HasTail(a.modes, a.currentMode)
    requires Decode(Encoding(h)) == Decoded(got)
    ensures got == h
  {
    hide Encoding, Decode, Checksum;
    DivUnique(|a.modes|, 256, 0, |a.modes|);
    DecodedAgrees(h);
  }

  /** If every client asks for a current mode, what a connection holds is a SYN that
      some client sent before, in every field. */
  lemma TakenWasSent(mac: Mac, worlds: seq<World>, actions: seq<Action>, i: nat, k: nat)
    requires IsRun(mac, worlds, actions) && AskWithTail(actions) && i < |worlds|
    requires k < |worlds[i].threads| && Took(worlds[i].threads[k])
    ensures SentBy(actions[..i], worlds[i].threads[k].syn)
  {
    hide Encoding, Decode, Checksum, Judge, NoForgery, Next, Init;
    Invariant(mac, worlds, actions, i);
    SynsSentInvariant(mac, worlds, actions, i);
    var w := worlds[i];
    var t := w.threads[k];
    assert ThreadOk(w, t);
    var b :| b in w.built && b.h.kind == SYN && b.meaning == Decoded(t.syn);
    var j :| 0 <= j < i && actions[..i][j].Connect? && b.h == SynIn(actions[..i][j]);
    TailArrives(b.h, t.syn, actions[j]);
  }

  /** Every number in the server's cache was given to some client's `Connect`. */
  lemma MarkedWasAsked(mac: Mac, worlds: seq<World>, actions: seq<Action>, i: nat, s: u64)
    requires IsRun(mac, worlds, actions) && AskWithTail(actions) && i < |worlds|
    requires s in worlds[i].seen
    ensures exists j :: 0 <= j < i && actions[j].Connect? && actions[j].sequence == s
  {
    hide Encoding, Decode, Checksum, Judge, NoForgery, Next, Init;
    SeenInvariant(mac, worlds, actions, i);
    var w := worlds[i];
    assert MarkedBy(w, s, w.seen[s]);
    var k :| 0 <= k < |w.threads| && HasMark(w.threads[k]) && w.threads[k].syn.sequence == s;
    TakenWasSent(mac, worlds, actions, i, k);
    var j :| 0 <= j < i && actions[..i][j].Connect? && w.threads[k].syn == SynIn(actions[..i][j]);
    assert actions[j].sequence == s;
  }

  // --------------------------------------------------------- two side by side

  lemma TickStep(mac: Mac, w: World, now: int)
    requires !w.crashed && NoForgery(mac, w) && w.now <= now
    ensures Next(mac, w, Tick, w.(now := now))
  {
    SameNet(mac, w, w.(now := now));
  }

  /** The packet of a SYN whose number is not held against it is taken and marked. */
  lemma TakeAndMark(mac: Mac, worlds: seq<World>, actions: seq<Action>, w: World, k: nat, syn: Handshake)
    returns (longer: seq<World>, more: seq<Action>, v: World)
    requires IsMac(mac) && Ends(mac, worlds, actions, w) && HonestNet(mac, w) && !w.crashed
    requires Packet(mac, syn) in w.net && k < |w.threads| && w.threads[k].Idle?
    requires Verified(syn) && Carried(syn) && syn.currentMode != 0 && syn.kind == SYN
    requires syn.sequence !in w.seen || w.now - w.seen[syn.sequence] >= 30_000_000_000
    ensures Ends(mac, longer, more, v) && HonestNet(mac, v) && !v.crashed
    ensures v == w.(threads := w.threads[k := Marked(syn, w.now)], seen := v.seen)
    ensures v.seen == Purged(w.seen[syn.sequence := w.now], w.now)
  {
    hide Encoding, Decode, Checksum, Judge, NoForgery, HonestNet, Next;
    Unforged(mac, worlds, actions, w);
    HonestPacketArrivesWhole(mac, SYN, w.seen, w.now, syn);
    TakeStep(mac, w, k, Packet(mac, syn), syn);
    var u := WithThread(w, k, Checked(syn));
    Extend(mac, worlds, actions, w, Take(k, Packet(mac, syn)), u);
    SameNet(mac, w, u);
    HonestSame(mac, w, u);
    MarkStep(mac, u, k);
    v := AfterMark(u, k);
    longer, more := worlds + [u], actions + [Take(k, Packet(mac, syn))];
    Extend(mac, longer, more, u, Mark(k), v);
    HonestSame(mac, u, v);
    longer, more := longer + [v], more + [Mark(k)];
    assert v.threads == w.threads[k := Marked(syn, w.now)];
  }

  lemma SynIsSound(r: Request, sequence: u64)
    requires HasTail(r.modes, r.currentMode)
    ensures var syn := SynOf(r, sequence, 0, Zeros(16));
            Verified(syn) && Carried(syn) && syn.currentMode != 0 && syn.kind == SYN && syn.sequence == sequence
  {
    DivUnique(|r.modes|, 256, 0, |r.modes|);
  }

  /** The first of two clients is accepted. */
  lemma FirstAccepted(mac: Mac, a: Request, s: u64)
    returns (worlds: seq<World>, actions: seq<Action>, w: World)
    requires IsMac(mac) && HasTail(a.modes, a.currentMode)
    ensures Ends(mac, worlds, actions, w) && HonestNet(mac, w) && !w.crashed && w.now == 0
    ensures |w.clients| == 2 && w.seen == map[s := 0]
    ensures w.threads == [Marked(SynOf(a, s, 0, Zeros(16)), 0), Idle]
  {
    hide Encoding, Decode, Checksum, Judge, NoForgery, HonestNet, Next;
    var syn := SynOf(a, s, 0, Zeros(16));
    SynIsSound(a, s);
    worlds, actions, w := FirstConnect(mac, Dawn([Fresh, Fresh], [Idle, Idle]), 0, a, s, 0, Zeros(16));
    assert !w.crashed && w.now == 0 && w.seen == map[] && |w.clients| == 2 && w.threads == [Idle, Idle];
    worlds, actions, w := TakeAndMark(mac, worlds, actions, w, 0, syn);
    assert map[][s := 0] == map[s := 0];
  }

  /** Two clients that send different numbers, or one number thirty seconds apart, are
      both accepted, each with the whole of its SYN, and the server marks the numbers
      that they were given. */
  lemma BothAccepted(mac: Mac, a: Request, b: Request, s: u64, t: u64, gap: int)
    returns (worlds: seq<World>, actions: seq<Action>, w: World)
    requires IsMac(mac) && HasTail(a.modes, a.currentMode) && HasTail(b.modes, b.currentMode)
    requires gap >= 0 && (s != t || gap >= 30_000_000_000)
    ensures Ends(mac, worlds, actions, w) && w.now == gap
    ensures w.threads == [Marked(SynOf(a, s, 0, Zeros(16)), 0), Marked(SynOf(b, t, 0, Zeros(16)), gap)]
    ensures w.threads[0].syn.sequence == s && w.threads[1].syn.sequence == t
    ensures t in w.seen && w.seen[t] == gap
    ensures s != t && gap <= 60_000_000_000 ==> w.seen == map[s := 0, t := gap]
  {
    hide Encoding, Decode, Checksum, Judge, NoForgery, HonestNet, Next;
    var u;
    worlds, actions, u := FirstAccepted(mac, a, s);
    Unforged(mac, worlds, actions, u);
    TickStep(mac, u, gap);
    var v := u.(now := gap);
    Extend(mac, worlds, actions, u, Tick, v);
    worlds, actions := worlds + [v], actions + [Tick];
    HonestSame(mac, u, v);
    var syn := SynOf(b, t, 0, Zeros(16));
    SynIsSound(b, t);
    ConnectStep(mac, v, 1, b, t, 0, Zeros(16), syn);
    u := AfterConnect(mac, v, 1, syn);
    Extend(mac, worlds, actions, v, ConnectFor(1, b, t, 0, Zeros(16)), u);
    worlds, actions := worlds + [u], actions + [ConnectFor(1, b, t, 0, Zeros(16))];
    worlds, actions, w := TakeAndMark(mac, worlds, actions, u, 1, syn);
  }
}
