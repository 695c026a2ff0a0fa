/** The two engines in the form the source has them: the server's receive loop and the
    client's `Send` and read loop, proved against the steps of `DataPath`. */
module Engine {
  import opened Bytes
  import opened Masks
  import opened MaskPackets
  import opened MaskMixerClass
  import opened Sessions
  import opened DataPath
  import opened Sni
  import Model = MixerModel

  function ReceiveAll(end: End, s: Receiver, inbox: seq<seq<byte>>): Receiver
    decreases inbox
  {
    if inbox == [] then s else ReceiveAll(end, Receive(end, s, inbox[0]), inbox[1..])
  }

  lemma {:induction false} StoppedStays(end: End, s: Receiver, inbox: seq<seq<byte>>)
    requires s.status != Open
    ensures ReceiveAll(end, s, inbox) == s
  {
    if inbox != [] {
      StoppedStays(end, s, inbox[1..]);
    }
  }

  lemma NextReceived(end: End, s: Receiver, inbox: seq<seq<byte>>, i: nat)
    requires i < |inbox|
    ensures ReceiveAll(end, s, inbox[i..]) == ReceiveAll(end, Receive(end, s, inbox[i]), inbox[i + 1..])
  {
    assert inbox[i..][1..] == inbox[i + 1..];
  }

  /** A byte count after some datagrams; the server does not count FINs. */
  function Counted(end: End, count: u64, handled: seq<seq<byte>>): u64 {
    if handled == [] then count else
    var before := Counted(end, count, handled[..|handled| - 1]);
    var data := handled[|handled| - 1];
    if data == [] || (end.AtServer? && IsFin(data)) then before else Add64(before, |data|)
  }

  /** `i` datagrams handled: the rest leads to the same end, and all were counted. */
  ghost predicate Progress(end: End, before: Receiver, count: u64, now: Receiver, bytes: u64,
                           inbox: seq<seq<byte>>, i: nat)
    requires i <= |inbox|
  {
    && ReceiveAll(end, now, inbox[i..]) == ReceiveAll(end, before, inbox)
    && bytes == Counted(end, count, inbox[..i])
  }

  lemma ProgressStarts(end: End, s: Receiver, count: u64, inbox: seq<seq<byte>>)
    ensures Progress(end, s, count, s, count, inbox, 0)
  {
    assert inbox[0..] == inbox;
  }

  lemma ProgressNext(end: End, before: Receiver, count: u64, now: Receiver, bytes: u64, inbox: seq<seq<byte>>,
                     i: nat, next: Receiver, more: u64)
    requires i < |inbox| && Progress(end, before, count, now, bytes, inbox, i)
    requires next == Receive(end, now, inbox[i])
    requires more == if inbox[i] == [] || (end.AtServer? && IsFin(inbox[i])) then bytes else Add64(bytes, |inbox[i]|)
    ensures Progress(end, before, count, next, more, inbox, i + 1)
  {
    hide Receive, IsFin, Add64;
    NextReceived(end, now, inbox, i);
    assert inbox[..i + 1][..i] == inbox[..i];
  }

  lemma ProgressEnds(end: End, before: Receiver, count: u64, now: Receiver, bytes: u64, inbox: seq<seq<byte>>,
                     i: nat)
    requires i <= |inbox| && Progress(end, before, count, now, bytes, inbox, i)
    requires i == |inbox| || now.status != Open
    ensures now == ReceiveAll(end, before, inbox) && bytes == Counted(end, count, inbox[..i])
  {
    if now.status != Open {
      StoppedStays(end, now, inbox[i..]);
    }
  }

  /** The bytes of all datagrams, at the server without those that begin DE AD BE EF 03. */
  function Volume(end: End, handled: seq<seq<byte>>): nat {
    if handled == [] then 0 else
    var data := handled[|handled| - 1];
    Volume(end, handled[..|handled| - 1]) +
      if end.AtServer? && [0xDE, 0xAD, 0xBE, 0xEF, 0x03] <= data then 0 else |data|
  }

  lemma AddModulo(a: nat, b: nat, n: nat, m: nat)
    requires m > 0
    ensures ((a + b) % m + n) % m == (a + b + n) % m
  {
    var q, r := (a + b) / m, (a + b) % m;
    assert a + b == q * m + r;
    var p, s := (r + n) / m, (r + n) % m;
    assert r + n == p * m + s;
    assert (q + p) * m == q * m + p * m;
    DivUnique(a + b + n, m, q + p, s);
  }

  /** A byte count is the sum, modulo 2^64. */
  lemma {:induction false} CountedIsVolume(end: End, count: u64, handled: seq<seq<byte>>)
    ensures Counted(end, count, handled) == (count + Volume(end, handled)) % 0x1_0000_0000_0000_0000
  {
    if handled == [] {
      DivUnique(count, 0x1_0000_0000_0000_0000, 0, count);
    } else {
      var earlier, data := handled[..|handled| - 1], handled[|handled| - 1];
      CountedIsVolume(end, count, earlier);
      var v := Volume(end, earlier);
      AddModulo(count, v, |data|, 0x1_0000_0000_0000_0000);
      AddModulo(count, v, 0, 0x1_0000_0000_0000_0000);
      assert IsFin(data) <==> [0xDE, 0xAD, 0xBE, 0xEF, 0x03] <= data;
    }
  }

  method HasFinMarker(data: seq<byte>) returns (fin: bool)
    ensures fin == IsFin(data)
    ensures fin <==> |data| >= 5 && data[..5] == [0xDE, 0xAD, 0xBE, 0xEF, 0x03]
  {
    if |data| >= 5 && data[0] == 0xDE && data[1] == 0xAD && data[2] == 0xBE && data[3] == 0xEF {
      return data[4] == 0x03;
    }
    return false;
  }

  lemma ReceiveIs(end: End, s: Receiver, data: seq<byte>, r: Unwrapped, mixer: Model.Mixer)
    requires s.status == Open && data != [] && !(end.AtServer? && IsFin(data))
    requires (r, mixer) == Model.Unwrapping(s.mixer, data)
    ensures Receive(end, s, data) == Receiver(mixer, StatusAfter(end, r), s.out + Output(end, r, data))
  {}

  /** What the server writes to the TUN device for one datagram: the payload, or the
      raw datagram when no mask took it. */
  method Accept(r: Unwrapped, data: seq<byte>) returns (packets: seq<seq<byte>>)
    requires r.Payload? || r.Fails?
    ensures packets == Output(AtServer, r, data)
    ensures var p := if r.Payload? then r.bytes else data;
            packets == if |p| >= 20 && (0x40 <= p[0] < 0x50 || 0x60 <= p[0] < 0x70) then [p] else []
  {
    var unwrapped;
    if r.Fails? {
      if |data| < 20 {
        return [];
      }
      var version := data[0] / 16 % 16;
      if version != 4 && version != 6 {
        return [];
      }
      unwrapped := data;
    } else {
      unwrapped := r.bytes;
    }
    if |unwrapped| < 20 {
      return [];
    }
    var version := unwrapped[0] / 16 % 16;
    if version != 4 && version != 6 {
      return [];
    }
    return [unwrapped];
  }

  lemma AlwaysOpenAtServer(r: Unwrapped)
    requires r.Payload? || r.Fails?
    ensures StatusAfter(AtServer, r) == Open
  {}

  class ServerConnection {
    const session: Session
    var bytesIn: u64

    /** What was written to the TUN device for this connection. */
    var tun: seq<seq<byte>>

    constructor (session: Session)
      ensures this.session == session && bytesIn == 0 && tun == []
    {
      this.session, bytesIn, tun := session, 0, [];
    }

    ghost function View(status: Status): Receiver
      reads this, session.remoteMixer
    {
      Receiver(session.remoteMixer.View(), status, tun)
    }

    /** One turn of the loop. */
    method Handle(data: seq<byte>) returns (status: Status)
      requires session.Valid()
      modifies this, session, session.remoteMixer
      ensures session.Valid()
      ensures View(status) == Receive(AtServer, old(View(Open)), data)
      ensures status == Closed <==> |data| >= 5 && data[..5] == [0xDE, 0xAD, 0xBE, 0xEF, 0x03]
      ensures bytesIn == if data == [] || IsFin(data) then old(bytesIn) else Add64(old(bytesIn), |data|)
    {
      if |data| == 0 {
        return Open;
      }
      var fin := HasFinMarker(data);
      if fin {
        return Closed;
      }
      bytesIn := Add64(bytesIn, |data|);
      ghost var before := View(Open);
      var r := session.Unwrap(data);
      ReceiveIs(AtServer, before, data, r, session.remoteMixer.View());
      if r.Crashes? {
        return Crashed;
      }
      if r.Hangs? {
        return Hung;
      }
      var accepted := Accept(r, data);
      AlwaysOpenAtServer(r);
      tun := tun + accepted;
      return Open;
    }

    /** `handleDataExchange` for the datagrams that `Read` returns. */
    method HandleDataExchange(inbox: seq<seq<byte>>) returns (status: Status, handled: nat)
      requires session.Valid()
      modifies this, session, session.remoteMixer
      ensures session.Valid()
      ensures View(status) == ReceiveAll(AtServer, old(View(Open)), inbox)
      ensures handled <= |inbox| && (status == Open ==> handled == |inbox|)
      ensures bytesIn == Counted(AtServer, old(bytesIn), inbox[..handled])
    {
      hide Progress, Receive, ReceiveAll, Counted;
      status := Open;
      var i := 0;
      ProgressStarts(AtServer, View(Open), bytesIn, inbox);
      while i < |inbox|
        invariant i <= |inbox| && status == Open && session.Valid()
        invariant Progress(AtServer, old(View(Open)), old(bytesIn), View(Open), bytesIn, inbox, i)
      {
        ghost var now, bytes := View(Open), bytesIn;
        status := Handle(inbox[i]);
        ProgressNext(AtServer, old(View(Open)), old(bytesIn), now, bytes, inbox, i, View(status), bytesIn);
        i := i + 1;
        if status != Open {
          ProgressEnds(AtServer, old(View(Open)), old(bytesIn), View(status), bytesIn, inbox, i);
          return status, i;
        }
      }
      ProgressEnds(AtServer, old(View(Open)), old(bytesIn), View(Open), bytesIn, inbox, i);
      handled := i;
    }
  }

  /** What the client passes to its callback for one unwrapped packet. */
  method Screen(unwrapped: seq<byte>) returns (packets: seq<seq<byte>>)
    ensures packets == Output(AtClient, Payload(unwrapped), unwrapped)
    ensures packets ==
            if |unwrapped| == 0 then []
            else if |unwrapped| < 20 || 0x40 <= unwrapped[0] < 0x50 || 0x60 <= unwrapped[0] < 0x70 then [unwrapped]
            else []
  {
    if |unwrapped| == 0 {
      return [];
    }
    if |unwrapped| >= 20 {
      var version := unwrapped[0] / 16 % 16;
      if version != 4 && version != 6 {
        return [];
      }
    }
    return [unwrapped];
  }

  /** The name that a payload shows, if the client would look for one. */
  function NameShown(payload: seq<byte>): Scan {
    if |payload| > 43 && payload[0] == 0x16 then ExtractSni(payload) else NoName
  }

  /** The domain a client is on after a payload. */
  function DomainAfter(payload: seq<byte>, current: seq<byte>): seq<byte> {
    var shown := NameShown(payload);
    if shown.Name? && shown.bytes != [] then shown.bytes else current
  }

  datatype SendResult = Written | Filtered | ErrClosed | SendCrashes

  class Client {
    const session: Session
    /** The client's own mixer, which only asks for modes in the next handshake. */
    const mixer: MaskMixer
    const selector: seq<byte> -> string
    var currentDomain: seq<byte>
    var connected: bool
    var handshakeDone: bool
    var hasConn: bool
    var packetsSent: u64
    var bytesSent: u64
    var packetsRecv: u64
    var bytesRecv: u64
    /** What was written to the connection. */
    var written: seq<seq<byte>>
    /** What was passed to the packet callback. */
    var received: seq<seq<byte>>

    ghost predicate Valid()
      reads this, session
    {
      session.Valid() && mixer != session.localMixer && mixer != session.remoteMixer
    }

    constructor (session: Session, mixer: MaskMixer, selector: seq<byte> -> string)
      ensures this.session == session && this.mixer == mixer && this.selector == selector && currentDomain == []
      ensures !connected && !handshakeDone && !hasConn
      ensures packetsSent == bytesSent == packetsRecv == bytesRecv == 0 && written == received == []
    {
      this.session, this.mixer, this.selector, currentDomain := session, mixer, selector, [];
      connected, handshakeDone, hasConn := false, false, false;
      packetsSent, bytesSent, packetsRecv, bytesRecv := 0, 0, 0, 0;
      written, received := [], [];
    }

    ghost function View(status: Status): Receiver
      reads this, session.remoteMixer
    {
      Receiver(session.remoteMixer.View(), status, received)
    }

    method Send(payload: seq<byte>, e: Entropy) returns (r: SendResult)
      requires session.Valid()
      modifies this`packetsSent, this`bytesSent, this`written, session, session.localMixer
      ensures session.Valid()
      ensures r.Filtered? <==> connected && !Sends(AtServer, payload)
      ensures r.Filtered? <==>
                connected && |payload| >= 20 && !(0x40 <= payload[0] < 0x50) && !(0x60 <= payload[0] < 0x70)
      ensures !connected ==> r.ErrClosed?
      ensures !connected || r.Filtered? ==>
                session.localMixer.View() == old(session.localMixer.View()) && written == old(written)
                && packetsSent == old(packetsSent) && bytesSent == old(bytesSent)
      ensures connected && Sends(AtServer, payload) ==>
                && session.localMixer.View() == Model.AfterWrap(old(session.localMixer.View()), payload)
                && packetsSent == Add64(old(packetsSent), 1) && bytesSent == Add64(old(bytesSent), |payload|)
                && (r.SendCrashes? <==> KindOf(Model.ModeFor(old(session.localMixer.View()), payload)) in {QUIC, STUN})
                && (!r.SendCrashes? ==> (r.Written? <==> hasConn))
      ensures r.Written? ==> exists data ::
                written == old(written) + [data] && MayWrap(old(session.localMixer.View()), payload, data)
      ensures !r.Written? ==> written == old(written)
    {
      if !connected {
        return ErrClosed;
      }
      if |payload| >= 20 {
        var version := payload[0] / 16 % 16;
        if version != 4 && version != 6 {
          return Filtered;
        }
      }
      packetsSent := Add64(packetsSent, 1);
      bytesSent := Add64(bytesSent, |payload|);
      var w := session.Wrap(payload, e);
      if w.WrapCrashes? {
        return SendCrashes;
      }
      if !hasConn {
        return ErrClosed;
      }
      written := written + [w.data];
      return Written;
    }

    /** The scan of `processIncomingPacket`; it may die. */
    method LookForName(unwrapped: seq<byte>) returns (status: Status)
      modifies this`currentDomain, mixer
      ensures status == StatusAfter(AtClient, Payload(unwrapped))
      ensures status == Crashed <==> |unwrapped| > 43 && unwrapped[0] == 0x16 && ExtractSni(unwrapped).Overruns?
      ensures status in {Open, Crashed}
      ensures status == Open ==>
                currentDomain ==
                if |unwrapped| > 43 && unwrapped[0] == 0x16 && ExtractSni(unwrapped).Name?
                   && ExtractSni(unwrapped).bytes != [] then ExtractSni(unwrapped).bytes
                else old(currentDomain)
      ensures status == Open ==>
                && currentDomain == DomainAfter(unwrapped, old(currentDomain))
                && mixer.View() == if currentDomain == old(currentDomain) then old(mixer.View())
                                   else Model.SwitchTo(old(mixer.View()), ModeOfName(selector(currentDomain)))
    {
      if |unwrapped| > 43 && unwrapped[0] == 0x16 {
        var sni := ExtractSNI(unwrapped);
        if sni.Overruns? {
          return Crashed;
        }
        if sni.Name? && sni.bytes != [] && sni.bytes != currentDomain {
          currentDomain := sni.bytes;
          mixer.SwitchToDomain(sni.bytes, selector);
        }
      }
      return Open;
    }

    /** `processIncomingPacket`. */
    method Process(data: seq<byte>) returns (status: Status)
      requires Valid()
      modifies this`received, this`currentDomain, session, session.remoteMixer, mixer
      ensures Valid()
      ensures data != [] ==> View(status) == Receive(AtClient, old(View(Open)), data)
      ensures var r := Model.Unwrapping(old(session.remoteMixer.View()), data).0;
              status == Open && r.Payload? && r.bytes != [] ==>
                currentDomain == DomainAfter(r.bytes, old(currentDomain))
    {
      ghost var before := View(Open);
      var r := session.Unwrap(data);
      if data != [] {
        ReceiveIs(AtClient, before, data, r, session.remoteMixer.View());
      }
      if r.Crashes? {
        return Crashed;
      }
      if r.Hangs? {
        return Hung;
      }
      if r.Fails? || |r.bytes| == 0 {
        return Open;
      }
      status := LookForName(r.bytes);
      if status == Crashed {
        FatalIsNotIp(AtClient, r.bytes);
        return;
      }
      var accepted := Screen(r.bytes);
      received := received + accepted;
    }

    /** One turn of the read loop. */
    method ReadOne(data: seq<byte>) returns (status: Status)
      requires Valid()
      modifies this`received, this`currentDomain, this`packetsRecv, this`bytesRecv,
               session, session.remoteMixer, mixer
      ensures Valid()
      ensures View(status) == if handshakeDone then Receive(AtClient, old(View(Open)), data) else old(View(Open))
      ensures bytesRecv == if data != [] && handshakeDone then Add64(old(bytesRecv), |data|) else old(bytesRecv)
      ensures packetsRecv == if data != [] && handshakeDone then Add64(old(packetsRecv), 1) else old(packetsRecv)
    {
      if |data| == 0 {
        return Open;
      }
      if !handshakeDone {
        return Open;
      }
      packetsRecv := Add64(packetsRecv, 1);
      bytesRecv := Add64(bytesRecv, |data|);
      status := Process(data);
    }

    /** `readLoop` for the datagrams that `Read` returns, processed as they come. */
    method ReadLoop(inbox: seq<seq<byte>>) returns (status: Status, handled: nat)
      requires Valid()
      modifies this, session, session.remoteMixer, mixer
      ensures Valid() && handshakeDone == old(handshakeDone)
      ensures handled <= |inbox| && (status == Open ==> handled == |inbox|)
      ensures handshakeDone ==> View(status) == ReceiveAll(AtClient, old(View(Open)), inbox)
      ensures handshakeDone ==> bytesRecv == Counted(AtClient, old(bytesRecv), inbox[..handled])
      ensures !handshakeDone ==> View(status) == old(View(Open)) && bytesRecv == old(bytesRecv)
    {
      hide Progress, Receive, ReceiveAll, Counted;
      status := Open;
      var i := 0;
      ProgressStarts(AtClient, View(Open), bytesRecv, inbox);
      while i < |inbox|
        invariant i <= |inbox| && status == Open
        invariant Valid() && handshakeDone == old(handshakeDone)
        invariant if handshakeDone then
                    Progress(AtClient, old(View(Open)), old(bytesRecv), View(Open), bytesRecv, inbox, i)
                  else View(Open) == old(View(Open)) && bytesRecv == old(bytesRecv)
      {
        ghost var now, bytes := View(Open), bytesRecv;
        status := ReadOne(inbox[i]);
        if handshakeDone {
          ProgressNext(AtClient, old(View(Open)), old(bytesRecv), now, bytes, inbox, i, View(status), bytesRecv);
        }
        i := i + 1;
        if status != Open {
          break;
        }
      }
      if handshakeDone {
        ProgressEnds(AtClient, old(View(Open)), old(bytesRecv), View(status), bytesRecv, inbox, i);
      }
      handled := i;
    }
  }
}
