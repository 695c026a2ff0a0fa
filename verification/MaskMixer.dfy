/** The mixer of internal/shred/mask_mixer.go in the form the source has it: fields
    that the methods reassign, and the loops over the mode list. */
module MaskMixerClass {
  import opened Bytes
  import opened Masks
  import opened MaskPackets
  import opened MaskClasses
  import Model = MixerModel

  /** What a fresh mask draws from `rand.Read` and the clock. */
  datatype Draw = Draw(id: u64, word: u32, clock32: u32, clock64: u64, bytes: seq<byte>,
                       padding: seq<byte>, date: seq<byte>, cover: seq<byte>)

  type Entropy = e: Draw | |e.bytes| == 32 && |e.padding| < 64 && 13 !in e.date
    witness Draw(0, 0, 0, 0, Zeros(32), [], [], [])

  /** QUIC and STUN slice past their buffers on the first packet of a fresh mask. */
  datatype Wrapped = Packet(data: seq<byte>) | WrapCrashes

  const CARRYING: set<Kind> :=
    {Teams, WinUpdate, DNSOverHTTPS, RuTube, Yandex, VK, Zoom, Ozon, Wildberries, SberID, Gosuslugi}

  predicate Carries(kind: Kind, payload: seq<byte>, r: Wrapped) {
    r.Packet? && UnwrapBy(kind, r.data) == Payload(payload)
  }

  /** Teams draws under 64 bytes of padding, RuTube and Browser under 32. */
  function Below32(padding: seq<byte>): (p: seq<byte>)
    ensures |p| < 32 && p <= padding
  {
    if |padding| < 32 then padding else padding[..31]
  }

  /** What the first packet of a fresh mask with a fixed header begins with; its counter
      has gone up already except for VK and Zoom. */
  function FirstHeader(kind: Kind, size: nat, e: Entropy): seq<byte> {
    match kind
    case VK => e.bytes[..4] + BE(4, e.word) + BE(4, 0) + BE(4, size % 0x1_0000_0000)
    case Yandex => e.bytes[16..24] + [1, 0] + BE(4, 1) + BE(8, e.clock64) + e.bytes[..16]
    case Zoom => BE(8, e.id) + BE(4, e.word) + BE(4, e.clock32) + BE(2, 0) + e.bytes[..4]
    case Ozon => Ascii("OZONAPIv") + BE(8, 0) + BE(4, 0) + BE(4, 1)
    case Wildberries => Ascii("WBAPI202") + BE(8, 0) + BE(4, 1)
    case SberID => Ascii("SBERID/2.0") + [0, 0] + BE(8, 0) + BE(8, 0) + BE(4, 1)
    case Gosuslugi => Ascii("GOSUSLUGI2") + [0, 0] + BE(8, 0) + BE(8, 0) + BE(4, 1)
    case _ => []
  }

  /** The seven masks that only put a header before the payload. */
  method WrapPlain(kind: Kind, payload: seq<byte>, e: Entropy) returns (data: seq<byte>)
    requires kind in {VK, Yandex, Zoom, Ozon, Wildberries, SberID, Gosuslugi}
    ensures data == FirstHeader(kind, |payload|, e) + payload
    ensures UnwrapBy(kind, data) == Payload(payload)
  {
    hide UnwrapBy, Ascii, BE;
    match kind {
      case Yandex =>
        var m := new YandexMask(e.bytes[..16], e.bytes[16..24]);
        data := m.Wrap(payload, e.clock64);
      case VK =>
        var m := new VKMask(e.word, e.bytes[..4]);
        data := m.Wrap(payload);
      case Zoom =>
        var m := new ZoomMask(e.id, e.word, e.clock32);
        data := m.Wrap(payload, e.bytes[..4], e.clock32);
      case Ozon =>
        var m := new OzonMask(e.clock32);
        data := m.Wrap(payload, e.clock32);
      case Wildberries =>
        var m := new WildberriesMask();
        data := m.Wrap(payload);
      case SberID =>
        var m := new PortalMask("SBERID/2.0", e.clock32);
        data := m.Wrap(payload, e.clock32);
      case Gosuslugi =>
        var m := new PortalMask("GOSUSLUGI2", e.clock32);
        data := m.Wrap(payload, e.clock32);
    }
  }

  /** `factory.CreateMask(mode).Wrap(payload)`. */
  method WrapFresh(kind: Kind, payload: seq<byte>, e: Entropy) returns (r: Wrapped)
    ensures kind in CARRYING && |payload| < WORD ==> Carries(kind, payload, r)
    ensures kind in {QUIC, STUN} <==> r.WrapCrashes?
    ensures kind in {VK, Yandex, Zoom, Ozon, Wildberries, SberID, Gosuslugi} ==>
              r.data == FirstHeader(kind, |payload|, e) + payload
    ensures kind == Browser ==>
              r.data == BrowserPacket(SessionHead(e.id, 0), payload,
                                      if TlsLike(payload) || |payload| >= 1400 then [] else Below32(e.padding))
    ensures kind in {WebRTC, TLS} ==> r.data == e.cover
  {
    hide UnwrapBy, BrowserPacket, SessionHead, TlsLike, Below32, FirstHeader, TeamsPacket, RuTubePacket,
         WinUpdatePacket, DoHPacket, BE, Ascii, Digits;
    var data;
    match kind {
      case Teams =>
        var m := new TeamsMask(e.id, e.word);
        data := m.Wrap(payload, e.bytes[..8], e.padding);
      case WinUpdate =>
        var m := new WinUpdateMask(e.id, e.word);
        data := m.Wrap(payload);
      case DNSOverHTTPS =>
        var m := new DNSOverHTTPSMask();
        data := m.Wrap(payload, e.date);
      case RuTube =>
        var m := new RuTubeMask(e.id, e.bytes[..2]);
        data := m.Wrap(payload, Below32(e.padding));
      case Browser =>
        var m := new BrowserMask(e.id);
        data := m.Wrap(payload, Below32(e.padding));
      case WebRTC => data := e.cover;
      case TLS => data := e.cover;
      case QUIC => return WrapCrashes;
      case STUN => return WrapCrashes;
      case _ => data := WrapPlain(kind, payload, e);
    }
    r := Packet(data);
  }

  function ModeOfName(maskName: string): int {
    match maskName
    case "vk" => 7
    case "rutube" => 5
    case "yandex" => 6
    case "ozon" => 10
    case "wildberries" => 11
    case "sberid" => 12
    case "gosuslugi" => 13
    case "tls" => 14
    case "quic" => 1
    case _ => 0
  }

  lemma Names(maskName: string)
    ensures ModeOfName("vk") == 7 && ModeOfName("rutube") == 5 && ModeOfName("yandex") == 6
    ensures ModeOfName("ozon") == 10 && ModeOfName("wildberries") == 11 && ModeOfName("sberid") == 12
    ensures ModeOfName("gosuslugi") == 13 && ModeOfName("tls") == 14 && ModeOfName("quic") == 1
    ensures maskName !in ["vk", "rutube", "yandex", "ozon", "wildberries", "sberid", "gosuslugi", "tls", "quic"] ==>
              ModeOfName(maskName) == 0
  {}

  class MaskMixer {
    var currentMode: int
    var currentMask: Kind
    var modes: seq<int>
    var lastSwitch: int
    var switchInterval: int
    var stats: map<int, nat>
    var packetsWrapped: nat
    var packetsUnwrapped: nat
    var errorsCount: nat
    var timeBasedEnabled: bool
    var isDayModeActive: bool

    ghost function View(): Model.Mixer
      reads this
    {
      Model.Mixer(currentMode, currentMask, modes, lastSwitch, switchInterval, stats, packetsWrapped,
                  packetsUnwrapped, errorsCount, timeBasedEnabled, isDayModeActive)
    }

    constructor (switchInterval: int, hour: int, now: int)
      ensures View() == Model.New(switchInterval, hour, now)
      ensures modes == if 8 <= hour < 23 then [7, 6, 10, 11, 12, 13, 0, 1, 14] else [5, 14, 1, 0, 7]
      ensures currentMode == modes[0] && lastSwitch == now && this.switchInterval == switchInterval
      ensures timeBasedEnabled && isDayModeActive == (8 <= hour < 23)
      ensures stats == map[] && packetsWrapped == packetsUnwrapped == errorsCount == 0
    {
      var isDay := 8 <= hour < 23;
      var start := if isDay then Model.DAY_MODES else Model.NIGHT_MODES;
      modes := start;
      isDayModeActive := isDay;
      this.switchInterval := switchInterval;
      lastSwitch := now;
      currentMode := start[0];
      currentMask := KindOf(start[0]);
      stats := map[];
      packetsWrapped, packetsUnwrapped, errorsCount := 0, 0, 0;
      timeBasedEnabled := true;
    }

    method SetModes(newModes: seq<int>, now: int)
      modifies this
      ensures View() == Model.SetModes(old(View()), newModes, now)
      ensures newModes == [] ==> View() == old(View())
      ensures newModes != [] ==>
                && modes == newModes && currentMode == newModes[0] && lastSwitch == now && !timeBasedEnabled
                && stats == map[] && packetsWrapped == packetsUnwrapped == errorsCount == 0
                && switchInterval == old(switchInterval) && isDayModeActive == old(isDayModeActive)
    {
      hide KindOf;
      if |newModes| == 0 {
        return;
      }
      modes := newModes;
      currentMode := newModes[0];
      currentMask := KindOf(currentMode);
      lastSwitch := now;
      stats := map[];
      packetsWrapped, packetsUnwrapped, errorsCount := 0, 0, 0;
      timeBasedEnabled := false;
    }

    method AddMode(mode: int)
      modifies this
      ensures View() == Model.AddMode(old(View()), mode)
      ensures modes == if mode in old(modes) then old(modes) else old(modes) + [mode]
      ensures View() == old(View()).(modes := modes)
    {
      for i := 0 to |modes|
        invariant View() == old(View())
        invariant mode !in modes[..i]
      {
        if modes[i] == mode {
          return;
        }
      }
      assert modes[..|modes|] == modes;
      modes := modes + [mode];
    }

    method RemoveMode(mode: int, now: int)
      modifies this
      ensures View() == Model.RemoveMode(old(View()), mode, now)
    {
      var newModes := [];
      for i := 0 to |modes|
        invariant View() == old(View())
        invariant newModes == Model.Without(modes[..i], mode)
      {
        assert modes[..i + 1][..i] == modes[..i];
        if modes[i] != mode {
          newModes := newModes + [modes[i]];
        }
      }
      assert modes[..|modes|] == modes;
      if |newModes| == 0 {
        return;
      }
      modes := newModes;
      var found := false;
      for i := 0 to |modes|
        invariant modes == newModes && View() == old(View()).(modes := newModes)
        invariant found <==> currentMode in modes[..i]
      {
        if modes[i] == currentMode {
          found := true;
        }
        assert modes[..i + 1] == modes[..i] + [modes[i]];
      }
      assert modes[..|modes|] == modes;
      if !found {
        currentMode := modes[0];
        currentMask := KindOf(currentMode);
        lastSwitch := now;
      }
    }

    /** The position of the current mode, or -1. */
    method FindCurrent() returns (currentIndex: int)
      ensures currentIndex == Model.IndexOf(modes, currentMode)
    {
      currentIndex := -1;
      var i := 0;
      while i < |modes| && currentIndex == -1
        invariant 0 <= i <= |modes|
        invariant currentIndex == -1 ==> currentMode !in modes[..i]
        invariant currentIndex != -1 ==>
                    0 <= currentIndex < |modes| && modes[currentIndex] == currentMode
                    && currentMode !in modes[..currentIndex]
        decreases |modes| - i
      {
        if modes[i] == currentMode {
          currentIndex := i;
        }
        i := i + 1;
      }
      var p := Model.IndexOf(modes, currentMode);
      Model.PrefixMembers(modes, i);
      if currentIndex != -1 {
        Model.PrefixMembers(modes, currentIndex);
      }
      if p != -1 {
        Model.PrefixMembers(modes, p);
      }
    }

    method Rotate(now: int)
      modifies this
      ensures View() == Model.Rotate(old(View()), now)
      ensures forall i :: 0 <= i < |modes| && modes[i] == old(currentMode) && old(currentMode) !in modes[..i] ==>
                currentMode == modes[(i + 1) % |modes|]
      ensures modes != [] && old(currentMode) !in modes ==> currentMode == modes[0]
    {
      if |modes| == 0 {
        return;
      }
      Model.RotateGoesOn(View(), now);
      var currentIndex := FindCurrent();
      var nextIndex := (currentIndex + 1) % |modes|;
      var newMode := modes[nextIndex];
      currentMode := newMode;
      currentMask := KindOf(newMode);
      lastSwitch := now;
    }

    method CheckTimeBasedRotation(hour: int, now: int)
      modifies this
      ensures View() == Model.CheckTime(old(View()), hour, now)
      ensures !timeBasedEnabled || (8 <= hour < 23) == old(isDayModeActive) ==> View() == old(View())
      ensures timeBasedEnabled && (8 <= hour < 23) != old(isDayModeActive) ==>
                && modes == (if 8 <= hour < 23 then [7, 6, 10, 11, 12, 13, 0, 1, 14] else [5, 14, 1, 0, 7])
                && currentMode == modes[0] && lastSwitch == now && isDayModeActive == (8 <= hour < 23)
    {
      if !timeBasedEnabled {
        return;
      }
      var currentIsDay := 8 <= hour < 23;
      if currentIsDay && !isDayModeActive {
        modes := Model.DAY_MODES;
        isDayModeActive := true;
        currentMode := modes[0];
        currentMask := KindOf(currentMode);
        lastSwitch := now;
      } else if !currentIsDay && isDayModeActive {
        modes := Model.NIGHT_MODES;
        isDayModeActive := false;
        currentMode := modes[0];
        currentMask := KindOf(currentMode);
        lastSwitch := now;
      }
    }

    method GetCurrentMask(hour: int, now: int) returns (kind: Kind)
      modifies this
      ensures View() == Model.Observe(old(View()), hour, now)
      ensures kind == currentMask
    {
      CheckTimeBasedRotation(hour, now);
      if switchInterval > 0 && now - lastSwitch > switchInterval {
        Rotate(now);
      }
      kind := currentMask;
    }

    /** A new mask is built for every packet: the current mask is not used. */
    method Wrap(payload: seq<byte>, e: Entropy) returns (r: Wrapped)
      modifies this
      ensures View() == Model.AfterWrap(old(View()), payload)
      ensures var mode := if |payload| >= 5 && payload[0] == 0x16 && payload[1] == 0x03 then 15 else old(currentMode);
              stats == old(stats)[mode := 1 + if mode in old(stats) then old(stats)[mode] else 0]
      ensures View() == old(View()).(packetsWrapped := old(packetsWrapped) + 1, stats := stats)
      ensures var kind := KindOf(Model.ModeFor(old(View()), payload));
              && (kind in CARRYING && |payload| < WORD ==> Carries(kind, payload, r))
              && (kind in {QUIC, STUN} <==> r.WrapCrashes?)
    {
      hide UnwrapBy, Carries, KindOf;
      assert TlsLike(payload) <==> |payload| >= 5 && payload[0] == 0x16 && payload[1] == 0x03;
      var mode := if TlsLike(payload) then Model.BROWSER_MODE else currentMode;
      packetsWrapped := packetsWrapped + 1;
      stats := stats[mode := if mode in stats then stats[mode] + 1 else 1];
      r := WrapFresh(KindOf(mode), payload, e);
    }

    method Unwrap(data: seq<byte>) returns (r: Unwrapped)
      modifies this
      ensures (r, View()) == Model.Unwrapping(old(View()), data)
    {
      r := UnwrapBy(currentMask, data);
      if r.Payload? {
        packetsUnwrapped := packetsUnwrapped + 1;
        return;
      }
      if !r.Fails? {
        return;
      }
      for i := 0 to |modes|
        invariant View() == old(View())
        invariant Model.FirstTaker(modes, data) == i + Model.FirstTaker(modes[i..], data)
      {
        r := UnwrapBy(KindOf(modes[i]), data);
        assert modes[i..][1..] == modes[i + 1..];
        if r.Payload? {
          currentMode := modes[i];
          currentMask := KindOf(modes[i]);
          packetsUnwrapped := packetsUnwrapped + 1;
          return;
        }
        if !r.Fails? {
          return;
        }
      }
      errorsCount := errorsCount + 1;
      r := Fails(UnwrapFailed);
    }

    method SetSwitchInterval(interval: int)
      modifies this
      ensures View() == old(View()).(switchInterval := interval)
    {
      switchInterval := interval;
    }

    method SetCurrentMode(mode: int)
      modifies this
      ensures View() == Model.Select(old(View()), mode)
      ensures View() == old(View()).(currentMode := mode, kind := KindOf(mode))
    {
      currentMode := mode;
      currentMask := KindOf(mode);
    }

    /** `selector` is the table from domains to mask names. */
    method SwitchToDomain(domain: seq<byte>, selector: seq<byte> -> string)
      modifies this
      ensures View() == Model.SwitchTo(old(View()), ModeOfName(selector(domain)))
      ensures currentMode == ModeOfName(selector(domain))
      ensures currentMode != old(currentMode) ==>
                View() == old(View()).(currentMode := currentMode, kind := KindOf(currentMode))
      ensures currentMode == old(currentMode) ==> View() == old(View())
    {
      var newMode := ModeOfName(selector(domain));
      if currentMode == newMode {
        return;
      }
      currentMode := newMode;
      currentMask := KindOf(newMode);
    }
  }
}
