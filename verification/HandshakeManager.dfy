/** `HandshakeManager` of internal/shred/handshake.go in its own form: the two sides
    of a handshake as methods over the timed cache. */
module HandshakeManagers {
  import opened Bytes
  import opened HandshakeCodec
  import opened TimedCache
  import opened HandshakeProtocol

  /** The outcome of `SetReadDeadline` and `conn.Read`. */
  datatype Read = Got(packet: seq<byte>) | ReadFails

  /** The write deadline, which only the server sets, and the three writes. */
  datatype Writes = Writes(deadline: bool, succeeds: seq<bool>)

  datatype ServerResult =
    | Returns(config: Config) | ServerFails(error: HandshakeError) | NoSyn | NoDeadline | ServerPanics

  datatype ClientResult = Success | ClientFails(error: HandshakeError) | NoAck | ClientPanics

  function Copies(packet: seq<byte>, succeeds: seq<bool>): (copies: seq<seq<byte>>)
    ensures forall i :: 0 <= i < |copies| ==> copies[i] == packet
    ensures |copies| <= |succeeds| && (false !in succeeds ==> |copies| == |succeeds|)
  {
    if succeeds == [] then [] else
    Copies(packet, succeeds[..|succeeds| - 1]) + if succeeds[|succeeds| - 1] then [packet] else []
  }

  /** Each side writes its packet three times; an error is logged and passed over. */
  function Thrice(packet: seq<byte>, io: Writes): seq<seq<byte>> {
    Copies(packet, io.succeeds)
  }

  method WriteThrice(packet: seq<byte>, io: Writes) returns (written: seq<seq<byte>>)
    requires |io.succeeds| == 3
    ensures written == Thrice(packet, io)
  {
    written := [];
    for i := 0 to 3
      invariant written == Copies(packet, io.succeeds[..i])
    {
      assert io.succeeds[..i + 1][..i] == io.succeeds[..i];
      if io.succeeds[i] {
        written := written + [packet];
      }
    }
    assert io.succeeds[..3] == io.succeeds;
  }

  predicate WroteAck(mac: Mac, written: seq<seq<byte>>, config: Config, sequence: u64, clock: u64, nonce: Nonce,
                     io: Writes)
  {
    written == Thrice(Packet(mac, AckFor(config, sequence, clock, nonce)), io)
  }

  /** What the server does on a verdict, from its cache and counter before to after. */
  ghost predicate ServerOutcome(mac: Mac, v: Verdict, seen: map<u64, int>, sequence: u64, marks: nat -> int,
                                clock: u64, nonce: Nonce, seen': map<u64, int>, sequence': u64,
                                written: seq<seq<byte>>, r: ServerResult, done: int, io: Writes)
  {
    match v
    case Accept(syn) =>
      && sequence' == (sequence + 1) % 0x1_0000_0000_0000_0000
      && (if io.deadline then
            r == Returns(ConfigOf(syn)) && WroteAck(mac, written, ConfigOf(syn), sequence', clock, nonce, io)
          else r == NoDeadline && written == [])
      && PurgedBetween(seen[syn.sequence := marks(0)], seen', marks(0), done)
    case Refuse(error) => r == ServerFails(error) && written == [] && seen' == seen && sequence' == sequence
    case Panic => r == ServerPanics && written == [] && seen' == seen && sequence' == sequence
  }

  lemma Opened(mac: Mac, expected: byte, seen: map<u64, int>, now: int, packet: seq<byte>, data: seq<byte>, d: Decoded)
    requires Authentic(mac, Cut(packet)) && data == Cut(packet)[..|Cut(packet)| - SIGNATURE_LEN] && d == Decode(data)
    ensures Judge(mac, expected, seen, now, packet) == Judged(expected, seen, now, d)
  {}

  class HandshakeManager {
    const state: HandshakeState
    const mac: Mac

    constructor (mac: Mac)
      ensures this.mac == mac && fresh(state) && state.sequence == 0 && state.lastSeen == map[]
    {
      this.mac := mac;
      state := new HandshakeState();
    }

    method ResetReplayState()
      modifies state
      ensures state.sequence == 0 && state.lastSeen == map[]
    {
      state.Reset();
    }

    /** Encode, sign and append. */
    method MakePacket(h: Handshake) returns (packet: seq<byte>)
      ensures packet == Packet(mac, h)
    {
      var data := Encode(h);
      packet := data[..] + mac(data[..]);
    }

    method WriteSigned(h: Handshake, io: Writes) returns (written: seq<seq<byte>>)
      requires |io.succeeds| == 3
      ensures written == Thrice(Packet(mac, h), io)
      ensures forall p :: p in written ==> |p| >= 11 && p[..6] == h.magic + [h.kind, h.version]
    {
      var packet := MakePacket(h);
      PacketLayout(mac, h);
      written := WriteThrice(packet, io);
    }

    method CheckDecoded(expected: byte, d: Decoded, now: int) returns (v: Verdict)
      ensures v == Judged(expected, state.lastSeen, now, d)
    {
      match d {
        case Panics => return Panic;
        case Rejected(error) => return Refuse(BadPacket(error));
        case Decoded(h) =>
          if h.kind != expected {
            return Refuse(AuthFailed);
          }
          var replay := state.IsReplay(h.sequence, HANDSHAKE_WINDOW, now);
          return if replay then Refuse(HandshakeReplay) else Accept(h);
      }
    }

    /** From the bytes that `Read` left in the buffer to a verdict. */
    method Check(expected: byte, packet: seq<byte>, now: int) returns (v: Verdict)
      ensures v == Judge(mac, expected, state.lastSeen, now, packet)
    {
      var buf := if |packet| <= BUFFER_LEN then packet else packet[..BUFFER_LEN];
      var n := |buf|;
      assert buf == Cut(packet);
      if n < SIGNATURE_LEN {
        return Refuse(AuthFailed);
      }
      var data, signature := buf[..n - SIGNATURE_LEN], buf[n - SIGNATURE_LEN..];
      if mac(data) != signature {
        return Refuse(AuthFailed);
      }
      var d := DecodeHandshake(data);
      Opened(mac, expected, state.lastSeen, now, packet, data, d);
      v := CheckDecoded(expected, d, now);
    }

    method Answer(config: Config, clock: u64, nonce: Nonce, io: Writes) returns (written: seq<seq<byte>>)
      requires |io.succeeds| == 3
      modifies state`sequence
      ensures state.sequence == (old(state.sequence) + 1) % 0x1_0000_0000_0000_0000
      ensures if io.deadline then WroteAck(mac, written, config, state.sequence, clock, nonce, io) else written == []
      ensures forall p :: p in written ==> |p| >= 11 && p[..6] == [0xDE, 0xAD, 0xBE, 0xEF, 2, 1]
    {
      var number := state.NextSequence();
      var ack := NewHandshake(ACK, config.interval, config.modes, config.currentMode, number, clock, nonce);
      if !io.deadline {
        return [];
      }
      written := WriteSigned(ack, io);
    }

    /** `now` is the clock at the replay check, `marks` its readings while marking,
        `done` the last of them. */
    method PerformClientHandshake(interval: u32, modes: seq<int>, currentMode: int, sequence: u64, clock: u64,
                                  nonce: Nonce, io: Writes, answer: Read, now: int, marks: nat -> int)
      returns (written: seq<seq<byte>>, r: ClientResult, done: int)
      requires Ticking(marks) && |io.succeeds| == 3
      modifies state
      ensures var syn := NewHandshake(SYN, interval, modes, currentMode, sequence, clock, nonce);
              written == Thrice(Packet(mac, syn), io)
      ensures forall p :: p in written ==> |p| >= 11 && p[..6] == [0xDE, 0xAD, 0xBE, 0xEF, 1, 1]
      ensures state.sequence == old(state.sequence)
      ensures answer.ReadFails? <==> r.NoAck?
      ensures answer.Got? ==>
                match Judge(mac, ACK, old(state.lastSeen), now, answer.packet)
                case Accept(ack) =>
                  r.Success?
                  && PurgedBetween(old(state.lastSeen)[ack.sequence := marks(0)], state.lastSeen, marks(0), done)
                case Refuse(error) => r == ClientFails(error)
                case Panic => r == ClientPanics
      ensures !r.Success? ==> state.lastSeen == old(state.lastSeen)
    {
      hide Packet, Judge, PurgedBetween, Thrice, Verified;
      var syn := NewHandshake(SYN, interval, modes, currentMode, sequence, clock, nonce);
      written := WriteSigned(syn, io);
      if answer.ReadFails? {
        return written, NoAck, now;
      }
      var v := Check(ACK, answer.packet, now);
      match v {
        case Panic => return written, ClientPanics, now;
        case Refuse(error) => return written, ClientFails(error), now;
        case Accept(ack) =>
          var end := state.MarkSeen(ack.sequence, marks);
          return written, Success, end;
      }
    }

    method Conclude(v: Verdict, now: int, marks: nat -> int, clock: u64, nonce: Nonce, io: Writes)
      returns (written: seq<seq<byte>>, r: ServerResult, done: int)
      requires Ticking(marks) && |io.succeeds| == 3
      modifies state
      ensures !r.NoSyn?
      ensures ServerOutcome(mac, v, old(state.lastSeen), old(state.sequence), marks, clock, nonce,
                            state.lastSeen, state.sequence, written, r, done, io)
      ensures forall p :: p in written ==> |p| >= 11 && p[..6] == [0xDE, 0xAD, 0xBE, 0xEF, 2, 1]
    {
      written := [];
      match v {
        case Panic => return written, ServerPanics, now;
        case Refuse(error) => return written, ServerFails(error), now;
        case Accept(syn) =>
          done := state.MarkSeen(syn.sequence, marks);
          var config := Config(syn.switchInterval, syn.modes, syn.currentMode);
          written := Answer(config, clock, nonce, io);
          r := if io.deadline then Returns(config) else NoDeadline;
      }
    }

    method PerformServerHandshake(request: Read, now: int, marks: nat -> int, clock: u64, nonce: Nonce, io: Writes)
      returns (written: seq<seq<byte>>, r: ServerResult, done: int)
      requires Ticking(marks) && |io.succeeds| == 3
      modifies state
      ensures request.ReadFails? <==> r.NoSyn?
      ensures request.Got? ==>
                ServerOutcome(mac, Judge(mac, SYN, old(state.lastSeen), now, request.packet), old(state.lastSeen),
                              old(state.sequence), marks, clock, nonce, state.lastSeen, state.sequence,
                              written, r, done, io)
      ensures forall p :: p in written ==> |p| >= 11 && p[..6] == [0xDE, 0xAD, 0xBE, 0xEF, 2, 1]
      ensures request.ReadFails? ==>
                written == [] && state.lastSeen == old(state.lastSeen) && state.sequence == old(state.sequence)
    {
      written := [];
      if request.ReadFails? {
        return written, NoSyn, now;
      }
      var v := Check(SYN, request.packet, now);
      written, r, done := Conclude(v, now, marks, clock, nonce, io);
    }
  }
}
