/** Every interleaving of the two parties ends, and ends in agreement. */
module NoiseAgreement {
  import opened Bytes
  import opened NoiseModel

  lemma WriteKeeps(c: Crypto, p: Party, initiator: bool, me: Keys, peer: Keys)
    requires PartyOk(c, p, initiator, me, peer) && Sending(p)
    ensures PartyOk(c, Wrote(c, p), initiator, me, peer)
    ensures Consumed(Wrote(c, p)) == Consumed(p)
    ensures Written(c, initiator, me, p.pc + 1) == Written(c, initiator, me, p.pc) + Message(c, p)
  {}

  /** What the other side has written is a prefix of its two public keys. */
  lemma FirstKey(c: Crypto, initiator: bool, me: Keys, pc: nat, consumed: seq<byte>, rest: seq<byte>)
    requires consumed + rest == Written(c, initiator, me, pc)
    ensures |consumed| >= 32 ==> consumed[..32] == c.pub(me.ephemeral)
    ensures |consumed| >= 64 ==> consumed[32..64] == c.pub(me.longTerm)
    ensures |consumed| <= 64
  {
    var w := Written(c, initiator, me, pc);
    if |consumed| >= 32 {
      assert w[..32] == consumed[..32];
      assert w[..32] == c.pub(me.ephemeral);
    }
    if |consumed| >= 64 {
      assert w[32..64] == consumed[32..64];
      assert w[32..64] == c.pub(me.longTerm);
    }
  }

  lemma ReadConsumes(c: Crypto, p: Party, chunk: seq<byte>)
    requires Shape(p) && Receiving(p) && |p.got| + |chunk| <= 32
    ensures Consumed(Took(c, p, chunk)) == Consumed(p) + chunk
    ensures forall me :: Written(c, p.initiator, me, Took(c, p, chunk).pc) == Written(c, p.initiator, me, p.pc)
  {
    hide Effect;
  }

  lemma ReadKeeps(c: Crypto, p: Party, initiator: bool, me: Keys, peer: Keys, pc: nat, stream: seq<byte>, n: nat)
    requires PartyOk(c, p, initiator, me, peer) && CanRead(p, stream, n)
    requires Consumed(p) + stream == Written(c, !initiator, peer, pc)
    ensures PartyOk(c, Took(c, p, stream[..n]), initiator, me, peer)
    ensures Consumed(Took(c, p, stream[..n])) + stream[n..] == Written(c, !initiator, peer, pc)
    ensures Written(c, initiator, me, Took(c, p, stream[..n]).pc) == Written(c, initiator, me, p.pc)
  {
    var q := Took(c, p, stream[..n]);
    var got := p.got + stream[..n];
    ReadConsumes(c, p, stream[..n]);
    assert stream == stream[..n] + stream[n..];
    assert Consumed(p) + stream == (Consumed(p) + stream[..n]) + stream[n..];
    hide Written, Effect;
    FirstKey(c, !initiator, peer, pc, Consumed(q), stream[n..]);
    if |got| == 32 {
      if Program(initiator)[p.pc] == RecvE {
        assert Consumed(q)[..32] == got;
      } else {
        assert Consumed(q)[32..64] == got;
      }
    }
  }

  lemma StepKeeps(c: Crypto, i: Keys, r: Keys, s: System, a: Action)
    requires Inv(c, i, r, s) && Enabled(s, a)
    ensures Inv(c, i, r, Next(c, s, a))
  {
    match a {
      case WriteI =>
        WriteKeeps(c, s.i, true, i, r);
        hide Consumed, Written, After, Effect;
        assert Consumed(s.r) + (s.toR + Message(c, s.i)) == (Consumed(s.r) + s.toR) + Message(c, s.i);
      case WriteR =>
        WriteKeeps(c, s.r, false, r, i);
        hide Consumed, Written, After, Effect;
        assert Consumed(s.i) + (s.toI + Message(c, s.r)) == (Consumed(s.i) + s.toI) + Message(c, s.r);
      case ReadI(n) =>
        hide Consumed, Written, After, Effect;
        ReadKeeps(c, s.i, true, i, r, s.r.pc, s.toI, n);
      case ReadR(n) =>
        hide Consumed, Written, After, Effect;
        ReadKeeps(c, s.r, false, r, i, s.i.pc, s.toR, n);
    }
  }

  lemma {:induction false} Invariant(c: Crypto, i: Keys, r: Keys, states: seq<System>, actions: seq<Action>, k: nat)
    requires IsRun(c, i, r, states, actions) && k < |states|
    ensures Inv(c, i, r, states[k])
  {
    if k > 0 {
      Invariant(c, i, r, states, actions, k - 1);
      StepKeeps(c, i, r, states[k - 1], actions[k - 1]);
    }
  }

  // ------------------------------------------------------------------- progress

  lemma Lengths(c: Crypto, i: Keys, r: Keys, s: System)
    requires Inv(c, i, r, s)
    ensures |Consumed(s.r)| + |s.toR| == |Written(c, true, i, s.i.pc)|
    ensures |Consumed(s.i)| + |s.toI| == |Written(c, false, r, s.r.pc)|
  {}

  lemma Stuck(c: Crypto, i: Keys, r: Keys, s: System)
    requires Inv(c, i, r, s) && (Runs(s.i) || Runs(s.r)) && !Sending(s.i) && !Sending(s.r)
    requires Receiving(s.i) ==> s.toI == []
    requires Receiving(s.r) ==> s.toR == []
    ensures false
  {
    Lengths(c, i, r, s);
  }

  /** Until both parties have finished, some party can write or read. */
  lemma Progress(c: Crypto, i: Keys, r: Keys, s: System)
    requires Inv(c, i, r, s) && (Runs(s.i) || Runs(s.r))
    ensures exists a :: Enabled(s, a)
  {
    if Sending(s.i) {
      assert Enabled(s, WriteI);
    } else if Sending(s.r) {
      assert Enabled(s, WriteR);
    } else if Receiving(s.i) && s.toI != [] {
      assert Enabled(s, ReadI(1));
    } else if Receiving(s.r) && s.toR != [] {
      assert Enabled(s, ReadR(1));
    } else {
      Stuck(c, i, r, s);
    }
  }

  /** Instructions to send and bytes to read that a party still has before it. */
  function Work(p: Party): int {
    var left := if p.initiator then [66, 65, 33, 1] else [66, 34, 33, 32];
    (if 0 <= p.pc < 4 then left[p.pc] else 0) - |p.got|
  }

  lemma WriteWork(c: Crypto, p: Party)
    requires Shape(p) && Sending(p)
    ensures 0 <= Work(Wrote(c, p)) < Work(p)
  {}

  lemma ReadWork(c: Crypto, p: Party, stream: seq<byte>, n: nat)
    requires Shape(p) && CanRead(p, stream, n)
    ensures 0 <= Work(Took(c, p, stream[..n])) < Work(p)
  {}

  function TotalWork(s: System): int {
    Work(s.i) + Work(s.r)
  }

  lemma WorkFalls(c: Crypto, s: System, a: Action)
    requires Shape(s.i) && Shape(s.r) && Enabled(s, a)
    ensures 0 <= TotalWork(Next(c, s, a)) < TotalWork(s)
  {
    match a {
      case WriteI => WriteWork(c, s.i);
      case WriteR => WriteWork(c, s.r);
      case ReadI(n) => ReadWork(c, s.i, s.toI, n);
      case ReadR(n) => ReadWork(c, s.r, s.toR, n);
    }
  }

  /** The work left after `k` steps, counting down from 132. */
  lemma {:induction false} WorkBound(c: Crypto, i: Keys, r: Keys, states: seq<System>, actions: seq<Action>, k: nat)
    requires IsRun(c, i, r, states, actions) && k < |states|
    ensures 0 <= TotalWork(states[k]) <= 132 - k
  {
    if k > 0 {
      WorkBound(c, i, r, states, actions, k - 1);
      Invariant(c, i, r, states, actions, k - 1);
      WorkFalls(c, states[k - 1], actions[k - 1]);
      assert states[k] == Next(c, states[k - 1], actions[k - 1]);
    } else {
      assert TotalWork(Initial(c, i, r)) == 132;
    }
  }

  // ------------------------------------------------------------------ agreement

  lemma FinalTranscripts(c: Crypto, i: Keys, r: Keys)
    requires Commutes(c)
    ensures After(c, true, i, c.pub(r.ephemeral), c.pub(r.longTerm), 4) ==
            After(c, false, r, c.pub(i.ephemeral), c.pub(i.longTerm), 4)
  {
    var (iE, iS, rE, rS) := (c.pub(i.ephemeral), c.pub(i.longTerm), c.pub(r.ephemeral), c.pub(r.longTerm));
    var ee := c.dh(i.ephemeral, rE);
    var es := c.dh(i.ephemeral, rS);
    var se := c.dh(i.longTerm, rE);
    assert ee == c.dh(r.ephemeral, iE) && es == c.dh(r.longTerm, iE) && se == c.dh(r.ephemeral, iS);
    var t1 := MixHash(c, Start(c), iE);
    var t2 := MixKey(c, MixHash(c, t1, rE), ee);
    var t3 := MixKey(c, MixHash(c, t2, rS), es);
    assert After(c, true, i, rE, rS, 1) == t1 && After(c, false, r, iE, iS, 1) == t1;
    assert After(c, true, i, rE, rS, 2) == t2 && After(c, false, r, iE, iS, 2) == t2;
    assert After(c, true, i, rE, rS, 3) == t3 && After(c, false, r, iE, iS, 3) == t3;
  }

  /** However reads and writes interleave and however the streams are cut up: a run
      has at most 132 steps, some party can step until both have finished, and then
      both hold the same cipher key and transcript hash and each other's keys. */
  lemma Agreement(c: Crypto, i: Keys, r: Keys, states: seq<System>, actions: seq<Action>)
    requires Commutes(c) && IsRun(c, i, r, states, actions)
    ensures |actions| <= 132
    ensures var s := states[|actions|];
            if Runs(s.i) || Runs(s.r) then exists a :: Enabled(s, a)
            else
              && s.i.t == s.r.t
              && var name := c.hash(Ascii("Noise_XX_25519_ChaChaPoly_SHA256"));
              && s.i.t.h == c.hash(c.hash(c.hash(c.hash(name + c.pub(i.ephemeral)) + c.pub(r.ephemeral))
                                          + c.pub(r.longTerm)) + c.pub(i.longTerm))
              && s.i.t.ck == c.kdf1(c.kdf1(c.kdf1(name, c.dh(i.ephemeral, c.pub(r.ephemeral))),
                                           c.dh(i.ephemeral, c.pub(r.longTerm))),
                                    c.dh(i.longTerm, c.pub(r.ephemeral)))
              && s.i.peerE == c.pub(r.ephemeral) && s.i.peerS == c.pub(r.longTerm)
              && s.r.peerE == c.pub(i.ephemeral) && s.r.peerS == c.pub(i.longTerm)
  {
    var s := states[|actions|];
    Invariant(c, i, r, states, actions, |actions|);
    WorkBound(c, i, r, states, actions, |actions|);
    if Runs(s.i) || Runs(s.r) {
      Progress(c, i, r, s);
    } else {
      FinalTranscripts(c, i, r);
      InitiatorEnds(c, i, c.pub(r.ephemeral), c.pub(r.longTerm));
    }
  }
}
