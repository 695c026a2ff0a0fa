/** `NoiseHandshake` of internal/crypto/noise.go in its own form. `h` and `ck` start
    out as one array, and `MixKey` overwrites the old chaining key in place. */
module Noise {
  import opened Bytes
  import opened NoiseModel

  /** One end of a connection: the bytes that will come, and those written. */
  class Conn {
    var incoming: seq<byte>
    var outgoing: seq<byte>

    constructor (incoming: seq<byte>)
      ensures this.incoming == incoming && outgoing == []
    {
      this.incoming, outgoing := incoming, [];
    }

    method Write(data: seq<byte>)
      modifies this`outgoing
      ensures outgoing == old(outgoing) + data
    {
      outgoing := outgoing + data;
    }

    /** `io.ReadFull` for one key. */
    method ReadFull() returns (ok: bool, buf: Key)
      modifies this`incoming
      ensures ok <==> |old(incoming)| >= 32
      ensures ok ==> buf == old(incoming)[..32] && incoming == old(incoming)[32..]
    {
      if |incoming| < 32 {
        incoming := [];
        return false, Zeros(32);
      }
      ok, buf := true, incoming[..32];
      incoming := incoming[32..];
    }
  }

  method ArrayOf(s: Key) returns (a: array<byte>)
    ensures fresh(a) && a[..] == s
  {
    a := new byte[32](i requires 0 <= i < 32 => s[i]);
  }

  function Mixed(c: Crypto, t: Transcript, data: Key, secret: Key): Transcript {
    NoiseModel.MixKey(c, NoiseModel.MixHash(c, t, data), secret)
  }

  lemma InitiatorSteps(c: Crypto, me: Keys, peerE: Key, peerS: Key)
    ensures var t1 := NoiseModel.MixHash(c, Start(c), c.pub(me.ephemeral));
            var t2 := Mixed(c, t1, peerE, c.dh(me.ephemeral, peerE));
            var t3 := Mixed(c, t2, peerS, c.dh(me.ephemeral, peerS));
            After(c, true, me, peerE, peerS, 4) == Mixed(c, t3, c.pub(me.longTerm), c.dh(me.longTerm, peerE))
  {
    assert After(c, true, me, peerE, peerS, 1) == NoiseModel.MixHash(c, Start(c), c.pub(me.ephemeral));
    assert After(c, true, me, peerE, peerS, 3) ==
           Mixed(c, After(c, true, me, peerE, peerS, 2), peerS, c.dh(me.ephemeral, peerS));
  }

  lemma ResponderSteps(c: Crypto, me: Keys, peerE: Key, peerS: Key)
    ensures var t1 := NoiseModel.MixHash(c, Start(c), peerE);
            var t2 := Mixed(c, t1, c.pub(me.ephemeral), c.dh(me.ephemeral, peerE));
            var t3 := Mixed(c, t2, c.pub(me.longTerm), c.dh(me.longTerm, peerE));
            After(c, false, me, peerE, peerS, 4) == Mixed(c, t3, peerS, c.dh(me.ephemeral, peerS))
  {
    assert After(c, false, me, peerE, peerS, 1) == NoiseModel.MixHash(c, Start(c), peerE);
    assert After(c, false, me, peerE, peerS, 3) ==
           Mixed(c, After(c, false, me, peerE, peerS, 2), c.pub(me.longTerm), c.dh(me.longTerm, peerE));
  }

  class NoiseHandshake {
    const crypto: Crypto
    const initiator: bool
    const keys: Keys
    var peerStatic: Key
    var peerEphemeral: Key
    var ck: array<byte>
    var h: array<byte>
    var cipherKey: array?<byte>
    var finished: bool

    ghost predicate Sized()
      reads this
    {
      ck.Length == h.Length == 32
    }

    ghost function View(): Transcript
      requires Sized()
      reads this, h, ck
    {
      Transcript(h[..], ck[..])
    }

    constructor (crypto: Crypto, initiator: bool, keys: Keys)
      ensures Sized() && h == ck && fresh(h) && View() == Start(crypto)
      ensures this.crypto == crypto && this.initiator == initiator && this.keys == keys
      ensures !finished && cipherKey == null
    {
      var hash := ArrayOf(crypto.hash(Ascii("Noise_XX_25519_ChaChaPoly_SHA256")));
      this.crypto, this.initiator, this.keys := crypto, initiator, keys;
      h, ck := hash, hash;
      peerStatic, peerEphemeral, cipherKey, finished := Zeros(32), Zeros(32), null, false;
    }

    method MixHash(data: Key)
      requires Sized()
      modifies this`h
      ensures Sized() && fresh(h)
      ensures View() == NoiseModel.MixHash(crypto, old(View()), data)
      ensures h[..] == crypto.hash(old(h[..]) + data) && ck[..] == old(ck[..])
    {
      h := ArrayOf(crypto.hash(h[..] + data));
    }

    /** The second HKDF block lands in the old chaining key's array, and so in the
        hash if the two still share one. */
    method MixKey(data: Key)
      requires Sized()
      modifies this`ck, ck
      ensures Sized() && fresh(ck)
      ensures ck[..] == crypto.kdf1(old(ck[..]), data)
      ensures old(ck)[..] == crypto.kdf2(old(ck[..]), data)
      ensures old(h != ck) ==> h[..] == old(h[..])
      ensures old(h != ck) ==> View() == NoiseModel.MixKey(crypto, old(View()), data)
      ensures old(h == ck) ==> View().h == crypto.kdf2(old(View()).ck, data)
    {
      var salt := ck[..];
      var newCK := ArrayOf(crypto.kdf1(salt, data));
      Put(ck, 0, crypto.kdf2(salt, data));
      assert ck[..] == ck[..32];
      ck := newCK;
    }

    /** `mixHash` and then `mixKey`: hashing first gives `h` an array of its own. */
    method Mix(data: Key, secret: Key)
      requires Sized()
      modifies this`h, this`ck, ck
      ensures Sized() && fresh(h) && fresh(ck) && h != ck
      ensures View() == Mixed(crypto, old(View()), data, secret)
    {
      MixHash(data);
      MixKey(secret);
    }

    method Initiate(conn: Conn) returns (ok: bool)
      requires Sized() && h == ck && View() == Start(crypto) && initiator
      modifies this`h, this`ck, this`peerEphemeral, this`peerStatic, ck, conn
      ensures ok <==> |old(conn.incoming)| >= 64
      ensures ok ==>
                && Sized() && h != ck
                && peerEphemeral == old(conn.incoming)[..32] && peerStatic == old(conn.incoming)[32..64]
                && View() == After(crypto, true, keys, peerEphemeral, peerStatic, 4)
                && conn.incoming == old(conn.incoming)[64..]
      ensures conn.outgoing == old(conn.outgoing) + crypto.pub(keys.ephemeral) +
                               if ok then crypto.pub(keys.longTerm) else []
    {
      ghost var in_ := conn.incoming;
      conn.Write(crypto.pub(keys.ephemeral));
      MixHash(crypto.pub(keys.ephemeral));
      var got, key := conn.ReadFull();
      if !got {
        return false;
      }
      peerEphemeral := key;
      Mix(peerEphemeral, crypto.dh(keys.ephemeral, peerEphemeral));
      got, key := conn.ReadFull();
      if !got {
        return false;
      }
      assert key == in_[32..64] && conn.incoming == in_[64..];
      peerStatic := key;
      Mix(peerStatic, crypto.dh(keys.ephemeral, peerStatic));
      conn.Write(crypto.pub(keys.longTerm));
      Mix(crypto.pub(keys.longTerm), crypto.dh(keys.longTerm, peerEphemeral));
      InitiatorSteps(crypto, keys, peerEphemeral, peerStatic);
      return true;
    }

    method Respond(conn: Conn) returns (ok: bool)
      requires Sized() && h == ck && View() == Start(crypto) && !initiator
      modifies this`h, this`ck, this`peerEphemeral, this`peerStatic, ck, conn
      ensures ok <==> |old(conn.incoming)| >= 64
      ensures ok ==>
                && Sized() && h != ck
                && peerEphemeral == old(conn.incoming)[..32] && peerStatic == old(conn.incoming)[32..64]
                && View() == After(crypto, false, keys, peerEphemeral, peerStatic, 4)
                && conn.incoming == old(conn.incoming)[64..]
      ensures conn.outgoing ==
              if |old(conn.incoming)| < 32 then old(conn.outgoing)
              else old(conn.outgoing) + crypto.pub(keys.ephemeral) + crypto.pub(keys.longTerm)
    {
      ghost var in_ := conn.incoming;
      var got, key := conn.ReadFull();
      if !got {
        return false;
      }
      peerEphemeral := key;
      MixHash(peerEphemeral);
      conn.Write(crypto.pub(keys.ephemeral));
      Mix(crypto.pub(keys.ephemeral), crypto.dh(keys.ephemeral, peerEphemeral));
      conn.Write(crypto.pub(keys.longTerm));
      Mix(crypto.pub(keys.longTerm), crypto.dh(keys.longTerm, peerEphemeral));
      got, key := conn.ReadFull();
      if !got {
        return false;
      }
      assert key == in_[32..64] && conn.incoming == in_[64..];
      peerStatic := key;
      Mix(peerStatic, crypto.dh(keys.ephemeral, peerStatic));
      ResponderSteps(crypto, keys, peerEphemeral, peerStatic);
      return true;
    }

    /** Succeeds exactly when the peer's two keys arrive; the sharing of `h` and `ck`
        at the start never shows in the result. */
    method Handshake(conn: Conn) returns (ok: bool)
      requires Sized() && h == ck && View() == Start(crypto)
      modifies this, ck, conn
      ensures ok <==> |old(conn.incoming)| >= 64
      ensures ok ==>
                && finished && cipherKey == ck && Sized() && h != ck
                && peerEphemeral == old(conn.incoming)[..32] && peerStatic == old(conn.incoming)[32..64]
                && View() == After(crypto, initiator, keys, peerEphemeral, peerStatic, 4)
                && conn.incoming == old(conn.incoming)[64..]
                && conn.outgoing == old(conn.outgoing) + Written(crypto, initiator, keys, 4)
      ensures ok && initiator ==>
                var name := crypto.hash(Ascii("Noise_XX_25519_ChaChaPoly_SHA256"));
                && h[..] == crypto.hash(crypto.hash(crypto.hash(crypto.hash(
                              name + crypto.pub(keys.ephemeral)) + peerEphemeral) + peerStatic)
                              + crypto.pub(keys.longTerm))
                && cipherKey[..] == crypto.kdf1(crypto.kdf1(crypto.kdf1(
                                      name, crypto.dh(keys.ephemeral, peerEphemeral)),
                                      crypto.dh(keys.ephemeral, peerStatic)), crypto.dh(keys.longTerm, peerEphemeral))
      ensures ok && !initiator ==>
                var name := crypto.hash(Ascii("Noise_XX_25519_ChaChaPoly_SHA256"));
                && h[..] == crypto.hash(crypto.hash(crypto.hash(crypto.hash(
                              name + peerEphemeral) + crypto.pub(keys.ephemeral)) + crypto.pub(keys.longTerm))
                              + peerStatic)
                && cipherKey[..] == crypto.kdf1(crypto.kdf1(crypto.kdf1(
                                      name, crypto.dh(keys.ephemeral, peerEphemeral)),
                                      crypto.dh(keys.longTerm, peerEphemeral)), crypto.dh(keys.ephemeral, peerStatic))
      ensures !ok ==> !finished || old(finished)
      ensures !ok ==>
                conn.outgoing == old(conn.outgoing) +
                  if initiator then crypto.pub(keys.ephemeral)
                  else if |old(conn.incoming)| < 32 then []
                  else crypto.pub(keys.ephemeral) + crypto.pub(keys.longTerm)
    {
      hide After, Ascii;
      if initiator {
        ok := Initiate(conn);
      } else {
        ok := Respond(conn);
      }
      assert conn.outgoing[..|old(conn.outgoing)|] == old(conn.outgoing);
      if ok {
        finished := true;
        cipherKey := ck;
        InitiatorEnds(crypto, keys, peerEphemeral, peerStatic);
        ResponderEnds(crypto, keys, peerEphemeral, peerStatic);
      }
    }
  }
}
