/** The session of internal/shred/session.go: two mixers, a sliding replay window and
    byte counters. */
module Sessions {
  import opened Bytes
  import opened Masks
  import opened MaskMixerClass
  import opened MaskPackets
  import opened ReplayWindow
  import Model = MixerModel

  const TWO_64 := 0x1_0000_0000_0000_0000

  /** The caller's object: creating a session may rewrite its current mode. */
  class SessionConfig {
    const switchInterval: int
    const modes: seq<int>
    var currentMode: int
    const enableReplayProtection: bool
    const replayWindowSize: int

    constructor (switchInterval: int, modes: seq<int>, currentMode: int, enableReplayProtection: bool,
                 replayWindowSize: int)
      ensures this.switchInterval == switchInterval && this.modes == modes && this.currentMode == currentMode
      ensures this.enableReplayProtection == enableReplayProtection && this.replayWindowSize == replayWindowSize
    {
      this.switchInterval, this.modes, this.currentMode := switchInterval, modes, currentMode;
      this.enableReplayProtection, this.replayWindowSize := enableReplayProtection, replayWindowSize;
    }
  }

  /** A new mixer set to a session's modes and current mode. */
  function Created(interval: int, modes: seq<int>, currentMode: int, hour: int, made: int, set_: int): Model.Mixer {
    Model.Select(Model.SetModes(Model.New(interval, hour, made), modes, set_), currentMode)
  }

  /** What `SyncModes` makes of a mixer. */
  function Synced(m: Model.Mixer, interval: int, modes: seq<int>, now: int): Model.Mixer {
    Model.SetModes(m, modes, now).(switchInterval := interval)
  }

  function Add64(a: u64, b: nat): u64 {
    (a + b) % TWO_64
  }

  class Session {
    const id: u64
    const maskConfig: SessionConfig
    const localMixer: MaskMixer
    const remoteMixer: MaskMixer
    var bytesIn: u64
    var bytesOut: u64
    var replaySeen: map<u64, bool>
    var replayWindow: seq<u64>
    /** The sequence numbers checked so far with protection on. */
    ghost var checked: seq<u64>

    ghost predicate Valid()
      reads this
    {
      localMixer != remoteMixer && Tracks(replaySeen, replayWindow, checked, maskConfig.replayWindowSize)
    }

    /** `CreateSessionWithConfig`; `hour` and `clock` give the successive readings. */
    constructor (id: u64, config: SessionConfig, hour: nat -> int, clock: nat -> int)
      modifies config
      ensures Valid() && fresh(localMixer) && fresh(remoteMixer)
      ensures this.id == id && maskConfig == config && checked == [] && bytesIn == bytesOut == 0
      ensures config.currentMode == if old(config.currentMode) == 0 then Model.VK_MODE else old(config.currentMode)
      ensures localMixer.View() ==
              Created(config.switchInterval, config.modes, config.currentMode, hour(0), clock(0), clock(1))
      ensures remoteMixer.View() ==
              Created(config.switchInterval, config.modes, config.currentMode, hour(1), clock(2), clock(3))
      ensures config.currentMode == if old(config.currentMode) == 0 then 7 else old(config.currentMode)
      ensures localMixer.currentMode == remoteMixer.currentMode == config.currentMode
      ensures localMixer.switchInterval == remoteMixer.switchInterval == config.switchInterval
      ensures config.modes != [] ==>
                && localMixer.modes == remoteMixer.modes == config.modes
                && !localMixer.timeBasedEnabled && !remoteMixer.timeBasedEnabled
    {
      var mode := if config.currentMode == 0 then Model.VK_MODE else config.currentMode;
      var here := new MaskMixer(config.switchInterval, hour(0), clock(0));
      here.SetModes(config.modes, clock(1));
      here.SetCurrentMode(mode);
      var there := new MaskMixer(config.switchInterval, hour(1), clock(2));
      there.SetModes(config.modes, clock(3));
      there.SetCurrentMode(mode);
      this.id, maskConfig, localMixer, remoteMixer := id, config, here, there;
      bytesIn, bytesOut, replaySeen, replayWindow, checked := 0, 0, map[], [], [];
      new;
      config.currentMode := mode;
    }

    method SyncModes(clock: nat -> int)
      requires Valid()
      modifies localMixer, remoteMixer
      ensures Valid()
      ensures localMixer.View() == Synced(old(localMixer.View()), maskConfig.switchInterval, maskConfig.modes, clock(0))
      ensures remoteMixer.View() ==
                Synced(old(remoteMixer.View()), maskConfig.switchInterval, maskConfig.modes, clock(1))
      ensures maskConfig.modes != [] ==>
                && localMixer.modes == remoteMixer.modes == maskConfig.modes
                && localMixer.currentMode == remoteMixer.currentMode == maskConfig.modes[0]
      ensures localMixer.switchInterval == remoteMixer.switchInterval == maskConfig.switchInterval
    {
      var modes := maskConfig.modes;
      var interval := maskConfig.switchInterval;
      localMixer.SetModes(modes, clock(0));
      localMixer.SetSwitchInterval(interval);
      remoteMixer.SetModes(modes, clock(1));
      remoteMixer.SetSwitchInterval(interval);
    }

    method Wrap(payload: seq<byte>, e: Entropy) returns (r: Wrapped)
      requires Valid()
      modifies this`bytesOut, localMixer
      ensures Valid()
      ensures bytesOut == (old(bytesOut) + |payload|) % 0x1_0000_0000_0000_0000
      ensures localMixer.View() == Model.AfterWrap(old(localMixer.View()), payload)
      ensures remoteMixer.View() == old(remoteMixer.View())
      ensures var kind := KindOf(Model.ModeFor(old(localMixer.View()), payload));
              && (kind in CARRYING && |payload| < WORD ==> Carries(kind, payload, r))
              && (kind in {QUIC, STUN} <==> r.WrapCrashes?)
    {
      bytesOut := Add64(bytesOut, |payload|);
      r := localMixer.Wrap(payload, e);
    }

    method Unwrap(data: seq<byte>) returns (r: Unwrapped)
      requires Valid()
      modifies this`bytesIn, remoteMixer
      ensures Valid()
      ensures bytesIn == (old(bytesIn) + |data|) % 0x1_0000_0000_0000_0000
      ensures (r, remoteMixer.View()) == Model.Unwrapping(old(remoteMixer.View()), data)
      ensures localMixer.View() == old(localMixer.View())
    {
      bytesIn := Add64(bytesIn, |data|);
      r := remoteMixer.Unwrap(data);
    }

    method CheckReplay(sequence: u64) returns (replay: bool)
      requires Valid()
      modifies this`replaySeen, this`replayWindow, this`checked
      ensures Valid()
      ensures checked == old(checked) + if maskConfig.enableReplayProtection then [sequence] else []
      ensures replay <==> maskConfig.enableReplayProtection
                          && Replayed(old(checked), maskConfig.replayWindowSize, sequence)
    {
      if !maskConfig.enableReplayProtection {
        return false;
      }
      TracksNext(replaySeen, replayWindow, checked, maskConfig.replayWindowSize, sequence);
      checked := checked + [sequence];
      if sequence in replaySeen && replaySeen[sequence] {
        return true;
      }
      replaySeen := replaySeen[sequence := true];
      replayWindow := replayWindow + [sequence];
      if |replayWindow| > maskConfig.replayWindowSize {
        var oldest := replayWindow[0];
        replaySeen := replaySeen - {oldest};
        replayWindow := replayWindow[1..];
      }
      return false;
    }
  }

  ghost predicate InStep(session: Session, protector: ReplayProtection)
    reads session, protector
  {
    && session.Valid() && protector.Valid()
    && session.maskConfig.enableReplayProtection
    && session.maskConfig.replayWindowSize == protector.maxSize
    && session.checked == protector.calls
  }

  method CheckBoth(session: Session, protector: ReplayProtection, number: u64) returns (a: bool, b: bool)
    requires InStep(session, protector)
    modifies session, protector
    ensures InStep(session, protector)
    ensures a == b && protector.calls == old(protector.calls) + [number]
  {
    a := session.CheckReplay(number);
    b := protector.CheckAndAdd(number);
  }

  /** Driven by the same numbers, a session with protection on and a replay protector
      of the same size never disagree. */
  method SameVerdicts(session: Session, protector: ReplayProtection, numbers: seq<u64>)
    returns (bySession: seq<bool>, byProtector: seq<bool>)
    requires InStep(session, protector)
    modifies session, protector
    ensures InStep(session, protector)
    ensures bySession == byProtector && |bySession| == |numbers|
    ensures |protector.calls| == |old(protector.calls)| + |numbers|
  {
    bySession, byProtector := [], [];
    var i := 0;
    while i < |numbers|
      invariant i <= |numbers|
      invariant InStep(session, protector)
      invariant |protector.calls| == |old(protector.calls)| + i
      invariant bySession == byProtector && |bySession| == i
    {
      var a, b := CheckBoth(session, protector, numbers[i]);
      bySession, byProtector := bySession + [a], byProtector + [b];
      i := i + 1;
    }
  }
}
