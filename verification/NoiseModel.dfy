/** The XX key agreement of internal/crypto/noise.go as a step system: two parties on
    different code paths over two byte streams. The primitives are parameters. */
module NoiseModel {
  import opened Bytes

  type Key = s: seq<byte> | |s| == 32 witness Zeros(32)

  /** SHA-256, the first two HKDF outputs for a salt and a secret, and Curve25519. */
  datatype Crypto = Crypto(
    hash: seq<byte> -> Key, kdf1: (Key, Key) -> Key, kdf2: (Key, Key) -> Key, pub: Key -> Key, dh: (Key, Key) -> Key)

  /** All that is asked of Curve25519. */
  ghost predicate Commutes(c: Crypto) {
    forall a: Key, b: Key :: c.dh(a, c.pub(b)) == c.dh(b, c.pub(a))
  }

  datatype Keys = Keys(longTerm: Key, ephemeral: Key)

  datatype Transcript = Transcript(h: Key, ck: Key)

  function Start(c: Crypto): Transcript {
    var hash := c.hash(Ascii("Noise_XX_25519_ChaChaPoly_SHA256"));
    Transcript(hash, hash)
  }

  function MixHash(c: Crypto, t: Transcript, data: Key): Transcript {
    t.(h := c.hash(t.h + data))
  }

  function MixKey(c: Crypto, t: Transcript, secret: Key): Transcript {
    t.(ck := c.kdf1(t.ck, secret))
  }

  datatype Instruction = SendE | RecvE | SendS | RecvS

  function Program(initiator: bool): (p: seq<Instruction>)
    ensures |p| == 4
  {
    if initiator then [SendE, RecvE, RecvS, SendS] else [RecvE, SendE, SendS, RecvS]
  }

  function Effect(c: Crypto, initiator: bool, me: Keys, peerE: Key, peerS: Key, i: Instruction,
                  t: Transcript): Transcript {
    match i
    case SendE =>
      var u := MixHash(c, t, c.pub(me.ephemeral));
      if initiator then u else MixKey(c, u, c.dh(me.ephemeral, peerE))
    case RecvE =>
      var u := MixHash(c, t, peerE);
      if initiator then MixKey(c, u, c.dh(me.ephemeral, peerE)) else u
    case SendS => MixKey(c, MixHash(c, t, c.pub(me.longTerm)), c.dh(me.longTerm, peerE))
    case RecvS => MixKey(c, MixHash(c, t, peerS), c.dh(me.ephemeral, peerS))
  }

  /** A party's transcript after its first `n` instructions. */
  function After(c: Crypto, initiator: bool, me: Keys, peerE: Key, peerS: Key, n: nat): Transcript
    requires n <= 4
    decreases n, initiator
  {
    if n == 0 then Start(c) else
    Effect(c, initiator, me, peerE, peerS, Program(initiator)[n - 1], After(c, initiator, me, peerE, peerS, n - 1))
  }

  /** The transcript that an initiator's program ends with, written out: the hash runs
      over the protocol's name, both ephemeral keys, the responder's static key and the
      initiator's; the chaining key over the three secrets. */
  lemma InitiatorEnds(c: Crypto, me: Keys, peerE: Key, peerS: Key)
    ensures var name := c.hash(Ascii("Noise_XX_25519_ChaChaPoly_SHA256"));
            var t := After(c, true, me, peerE, peerS, 4);
            && t.h == c.hash(c.hash(c.hash(c.hash(name + c.pub(me.ephemeral)) + peerE) + peerS) + c.pub(me.longTerm))
            && t.ck == c.kdf1(c.kdf1(c.kdf1(name, c.dh(me.ephemeral, peerE)), c.dh(me.ephemeral, peerS)),
                              c.dh(me.longTerm, peerE))
  {
    var (t0, t1) := (After(c, true, me, peerE, peerS, 0), After(c, true, me, peerE, peerS, 1));
    var (t2, t3) := (After(c, true, me, peerE, peerS, 2), After(c, true, me, peerE, peerS, 3));
    assert t0 == Start(c) && t1.h == c.hash(t0.h + c.pub(me.ephemeral)) && t1.ck == t0.ck;
    assert t2.h == c.hash(t1.h + peerE) && t2.ck == c.kdf1(t1.ck, c.dh(me.ephemeral, peerE));
    assert t3.h == c.hash(t2.h + peerS) && t3.ck == c.kdf1(t2.ck, c.dh(me.ephemeral, peerS));
  }

  /** And a responder's. */
  lemma ResponderEnds(c: Crypto, me: Keys, peerE: Key, peerS: Key)
    ensures var name := c.hash(Ascii("Noise_XX_25519_ChaChaPoly_SHA256"));
            var t := After(c, false, me, peerE, peerS, 4);
            && t.h == c.hash(c.hash(c.hash(c.hash(name + peerE) + c.pub(me.ephemeral)) + c.pub(me.longTerm)) + peerS)
            && t.ck == c.kdf1(c.kdf1(c.kdf1(name, c.dh(me.ephemeral, peerE)), c.dh(me.longTerm, peerE)),
                              c.dh(me.ephemeral, peerS))
  {
    var (t0, t1) := (After(c, false, me, peerE, peerS, 0), After(c, false, me, peerE, peerS, 1));
    var (t2, t3) := (After(c, false, me, peerE, peerS, 2), After(c, false, me, peerE, peerS, 3));
    assert t0 == Start(c) && t1.h == c.hash(t0.h + peerE) && t1.ck == t0.ck;
    assert t2.h == c.hash(t1.h + c.pub(me.ephemeral)) && t2.ck == c.kdf1(t1.ck, c.dh(me.ephemeral, peerE));
    assert t3.h == c.hash(t2.h + c.pub(me.longTerm)) && t3.ck == c.kdf1(t2.ck, c.dh(me.longTerm, peerE));
  }

  // ---------------------------------------------------------------- step system

  /** `got` holds the bytes of the read in progress. */
  datatype Party = Party(initiator: bool, me: Keys, pc: nat, got: seq<byte>, peerE: Key, peerS: Key, t: Transcript)

  predicate Runs(p: Party) {
    p.pc < 4
  }

  predicate Sending(p: Party) {
    Runs(p) && Program(p.initiator)[p.pc] in {SendE, SendS}
  }

  predicate Receiving(p: Party) {
    Runs(p) && Program(p.initiator)[p.pc] in {RecvE, RecvS}
  }

  function Message(c: Crypto, p: Party): Key
    requires Sending(p)
  {
    c.pub(if Program(p.initiator)[p.pc] == SendE then p.me.ephemeral else p.me.longTerm)
  }

  function Wrote(c: Crypto, p: Party): Party
    requires Sending(p)
  {
    p.(pc := p.pc + 1, t := Effect(c, p.initiator, p.me, p.peerE, p.peerS, Program(p.initiator)[p.pc], p.t))
  }

  /** `io.ReadFull` takes what has come and waits until it has 32 bytes. */
  function Took(c: Crypto, p: Party, chunk: seq<byte>): Party
    requires Receiving(p) && |p.got| + |chunk| <= 32
  {
    var got := p.got + chunk;
    if |got| < 32 then p.(got := got) else
    var i := Program(p.initiator)[p.pc];
    var q := if i == RecvE then p.(peerE := got) else p.(peerS := got);
    q.(pc := p.pc + 1, got := [], t := Effect(c, p.initiator, p.me, q.peerE, q.peerS, i, p.t))
  }

  /** `toR` and `toI` hold the bytes under way. */
  datatype System = System(i: Party, r: Party, toR: seq<byte>, toI: seq<byte>)

  datatype Action = WriteI | WriteR | ReadI(n: nat) | ReadR(n: nat)

  predicate CanRead(p: Party, stream: seq<byte>, n: nat) {
    Receiving(p) && 1 <= n <= |stream| && |p.got| + n <= 32
  }

  predicate Enabled(s: System, a: Action) {
    match a
    case WriteI => Sending(s.i)
    case WriteR => Sending(s.r)
    case ReadI(n) => CanRead(s.i, s.toI, n)
    case ReadR(n) => CanRead(s.r, s.toR, n)
  }

  function Next(c: Crypto, s: System, a: Action): System
    requires Enabled(s, a)
  {
    match a
    case WriteI => s.(i := Wrote(c, s.i), toR := s.toR + Message(c, s.i))
    case WriteR => s.(r := Wrote(c, s.r), toI := s.toI + Message(c, s.r))
    case ReadI(n) => s.(i := Took(c, s.i, s.toI[..n]), toI := s.toI[n..])
    case ReadR(n) => s.(r := Took(c, s.r, s.toR[..n]), toR := s.toR[n..])
  }

  function Initial(c: Crypto, i: Keys, r: Keys): System {
    System(Party(true, i, 0, [], Zeros(32), Zeros(32), Start(c)),
           Party(false, r, 0, [], Zeros(32), Zeros(32), Start(c)), [], [])
  }

  ghost predicate IsRun(c: Crypto, i: Keys, r: Keys, states: seq<System>, actions: seq<Action>) {
    && |states| == |actions| + 1
    && states[0] == Initial(c, i, r)
    && forall k :: 0 <= k < |actions| ==>
         Enabled(states[k], actions[k]) && states[k + 1] == Next(c, states[k], actions[k])
  }

  // ------------------------------------------------------------------ invariant

  /** All that a party has written by instruction `pc`. */
  function Written(c: Crypto, initiator: bool, me: Keys, pc: nat): seq<byte> {
    var e, s := c.pub(me.ephemeral), c.pub(me.longTerm);
    if initiator then (if pc == 0 then [] else if pc < 4 then e else e + s)
    else (if pc < 2 then [] else if pc < 3 then e else e + s)
  }

  function FirstRead(initiator: bool): nat {
    if initiator then 1 else 0
  }

  function SecondRead(initiator: bool): nat {
    if initiator then 2 else 3
  }

  /** All that a party has read so far. */
  function Consumed(p: Party): seq<byte> {
    (if p.pc > FirstRead(p.initiator) then p.peerE else [])
    + (if p.pc > SecondRead(p.initiator) then p.peerS else []) + p.got
  }

  predicate Shape(p: Party) {
    p.pc <= 4 && |p.got| < 32 && (!Receiving(p) ==> p.got == [])
  }

  predicate PartyOk(c: Crypto, p: Party, initiator: bool, me: Keys, peer: Keys) {
    && p.initiator == initiator && p.me == me && Shape(p)
    && (p.pc > FirstRead(initiator) ==> p.peerE == c.pub(peer.ephemeral))
    && (p.pc > SecondRead(initiator) ==> p.peerS == c.pub(peer.longTerm))
    && p.t == After(c, initiator, me, c.pub(peer.ephemeral), c.pub(peer.longTerm), p.pc)
  }

  predicate Inv(c: Crypto, i: Keys, r: Keys, s: System) {
    && PartyOk(c, s.i, true, i, r) && PartyOk(c, s.r, false, r, i)
    && Consumed(s.r) + s.toR == Written(c, true, i, s.i.pc)
    && Consumed(s.i) + s.toI == Written(c, false, r, s.r.pc)
  }
}
