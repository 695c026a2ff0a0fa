/** Invariants of the mask mixer over every sequence of its operations. */
module MixerRuns {
  import opened Bytes
  import opened Masks
  import opened MixerModel

  datatype Op =
    | DoSetModes(modes: seq<int>, now: int)
    | DoAddMode(mode: int)
    | DoRemoveMode(mode: int, now: int)
    | DoRotate(now: int)
    | DoObserve(hour: int, now: int)
    | DoWrap(payload: seq<byte>)
    | DoUnwrap(data: seq<byte>)
    | DoSetCurrentMode(mode: int)
    | DoSwitchTo(mode: int)
    | DoSetInterval(interval: int)

  function Apply(m: Mixer, op: Op): Mixer {
    match op
    case DoSetModes(modes, now) => SetModes(m, modes, now)
    case DoAddMode(mode) => AddMode(m, mode)
    case DoRemoveMode(mode, now) => RemoveMode(m, mode, now)
    case DoRotate(now) => Rotate(m, now)
    case DoObserve(hour, now) => Observe(m, hour, now)
    case DoWrap(payload) => AfterWrap(m, payload)
    case DoUnwrap(data) => Unwrapping(m, data).1
    case DoSetCurrentMode(mode) => Select(m, mode)
    case DoSwitchTo(mode) => SwitchTo(m, mode)
    case DoSetInterval(interval) => m.(switchInterval := interval)
  }

  /** `forced`: the current mode was last set from outside the list.
      `unwraps`, `wraps`: calls that returned since the last effective `SetModes`. */
  datatype History = History(mixer: Mixer, forced: bool, unwraps: nat, wraps: nat)

  /** The mode is taken from the list anew: by a switch of the half of the day, by a
      rotation of an expired interval, or by falling back to another mask. */
  predicate Settles(m: Mixer, op: Op) {
    match op
    case DoSetModes(modes, _) => modes != []
    case DoRemoveMode(mode, _) => Without(m.modes, mode) != []
    case DoRotate(_) => true
    case DoObserve(hour, now) => SwitchesHalf(m, hour) || IsDue(CheckTime(m, hour, now), now)
    case DoUnwrap(data) => FallsBack(m, data)
    case _ => false
  }

  function Returns(m: Mixer, op: Op): nat {
    if op.DoUnwrap? && (Unwrapping(m, op.data).0.Payload? || Unwrapping(m, op.data).0.Fails?) then 1 else 0
  }

  function Step(h: History, op: Op): History {
    var m := h.mixer;
    var reset := op.DoSetModes? && op.modes != [];
    History(
      Apply(m, op),
      if Settles(m, op) then false
      else h.forced || op.DoSetCurrentMode? || (op.DoSwitchTo? && op.mode != m.currentMode),
      if reset then 0 else h.unwraps + Returns(m, op),
      if reset then 0 else h.wraps + if op.DoWrap? then 1 else 0)
  }

  function Run(start: Mixer, ops: seq<Op>): History {
    if ops == [] then History(start, false, 0, 0)
    else Step(Run(start, ops[..|ops| - 1]), ops[|ops| - 1])
  }

  // -------------------------------------------------------- sums over the stats

  ghost function Sum(m: map<int, nat>): nat {
    if forall k :: k !in m then 0 else
    var k :| k in m;
    m[k] + Sum(m - {k})
  }

  lemma {:induction false} SumWithout(m: map<int, nat>, k: int)
    requires k in m
    ensures Sum(m) == m[k] + Sum(m - {k})
    decreases |m|
  {
    var c :| c in m && Sum(m) == m[c] + Sum(m - {c});
    if c != k {
      SumWithout(m - {c}, k);
      SumWithout(m - {k}, c);
      assert m - {c} - {k} == m - {k} - {c};
    }
  }

  lemma SumUpdate(m: map<int, nat>, k: int, v: nat)
    ensures Sum(m[k := v]) == v + Sum(m) - if k in m then m[k] else 0
  {
    SumWithout(m[k := v], k);
    if k in m {
      SumWithout(m, k);
      assert m[k := v] - {k} == m - {k};
    } else {
      assert m[k := v] - {k} == m;
    }
  }

  // ------------------------------------------------------------------ invariant

  ghost predicate Inv(h: History) {
    var m := h.mixer;
    && m.modes != []
    && m.kind == KindOf(m.currentMode)
    && (!h.forced ==> m.currentMode in m.modes)
    && Sum(m.stats) == m.packetsWrapped == h.wraps
    && m.packetsUnwrapped + m.errorsCount == h.unwraps
  }

  lemma {:induction false} WithoutMembers(modes: seq<int>, mode: int)
    ensures forall x :: x in Without(modes, mode) <==> x in modes && x != mode
  {
    if modes != [] {
      var n := |modes| - 1;
      WithoutMembers(modes[..n], mode);
      assert modes == modes[..n] + [modes[n]];
    }
  }

  lemma NextModeListed(modes: seq<int>, current: int)
    requires modes != []
    ensures NextMode(modes, current) in modes
  {}

  lemma ObserveListed(m: Mixer, hour: int, now: int)
    requires m.modes != [] && m.kind == KindOf(m.currentMode)
    ensures var o := Observe(m, hour, now);
            && o.modes != [] && o.kind == KindOf(o.currentMode)
            && (o.currentMode in o.modes || (o.modes == m.modes && o.currentMode == m.currentMode))
            && o.stats == m.stats && o.packetsWrapped == m.packetsWrapped
            && o.packetsUnwrapped == m.packetsUnwrapped && o.errorsCount == m.errorsCount
  {
    var t := CheckTime(m, hour, now);
    NextModeListed(t.modes, t.currentMode);
  }

  lemma InvWrap(h: History, op: Op)
    requires Inv(h) && op.DoWrap?
    ensures Inv(Step(h, op))
  {
    var m := h.mixer;
    var mode := ModeFor(m, op.payload);
    SumUpdate(m.stats, mode, if mode in m.stats then m.stats[mode] + 1 else 1);
  }

  lemma InvUnwrap(h: History, op: Op)
    requires Inv(h) && op.DoUnwrap?
    ensures Inv(Step(h, op))
  {
    UnwrapFailsExactly(h.mixer, op.data);
    if Unwrapping(h.mixer, op.data).0.Payload? {
      UnwrapSettles(h.mixer, op.data);
    }
  }

  lemma InvObserve(h: History, op: Op)
    requires Inv(h) && (op.DoObserve? || op.DoRotate?)
    ensures Inv(Step(h, op))
  {
    if op.DoObserve? {
      ObserveListed(h.mixer, op.hour, op.now);
    } else {
      NextModeListed(h.mixer.modes, h.mixer.currentMode);
    }
  }

  lemma InvList(h: History, op: Op)
    requires Inv(h) && (op.DoSetModes? || op.DoAddMode? || op.DoRemoveMode?)
    ensures Inv(Step(h, op))
  {
    if op.DoRemoveMode? {
      WithoutMembers(h.mixer.modes, op.mode);
    } else if op.DoSetModes? && op.modes != [] {
      assert Sum(map[]) == 0;
      assert op.modes[0] in op.modes;
    }
  }

  lemma InvStep(h: History, op: Op)
    requires Inv(h)
    ensures Inv(Step(h, op))
  {
    if op.DoWrap? {
      InvWrap(h, op);
    } else if op.DoUnwrap? {
      InvUnwrap(h, op);
    } else if op.DoObserve? || op.DoRotate? {
      InvObserve(h, op);
    } else if op.DoSetModes? || op.DoAddMode? || op.DoRemoveMode? {
      InvList(h, op);
    }
  }

  /** Every reachable state: the list is never empty, the current mask is of the
      current mode's kind, the current mode is listed unless it was forced, the
      statistics add up to the packets wrapped, and each returned `Unwrap` since the
      last effective `SetModes` was counted once. */
  lemma {:induction false} Invariant(interval: int, hour: int, now: int, ops: seq<Op>)
    ensures Inv(Run(New(interval, hour, now), ops))
  {
    if ops != [] {
      Invariant(interval, hour, now, ops[..|ops| - 1]);
      InvStep(Run(New(interval, hour, now), ops[..|ops| - 1]), ops[|ops| - 1]);
    }
  }

  // -------------------------------------------------------- what removing keeps

  /** Taken place by place: a removed mode leaves nothing, any other mode itself. */
  lemma {:induction false} WithoutAppend(a: seq<int>, b: seq<int>, mode: int)
    ensures Without(a + b, mode) == Without(a, mode) + Without(b, mode)
  {
    if b == [] {
      assert a + b == a;
    } else {
      var n := |b| - 1;
      assert (a + b)[..|a| + n] == a + b[..n];
      WithoutAppend(a, b[..n], mode);
    }
  }

  lemma WithoutOne(x: int, mode: int)
    ensures Without([x], mode) == if x == mode then [] else [x]
  {
    assert [x][..0] == [];
    assert [] + [x] == [x];
  }

  lemma WithoutAll(modes: seq<int>, mode: int)
    ensures Without(modes, mode) == [] <==> forall x :: x in modes ==> x == mode
  {
    WithoutMembers(modes, mode);
    var rest := Without(modes, mode);
    if rest != [] {
      assert rest[0] in rest;
      assert rest[0] in modes && rest[0] != mode;
    } else {
      forall x | x in modes
        ensures x == mode
      {
        assert x !in rest;
      }
    }
  }

  /** Removing a mode does nothing if no other is listed. Otherwise the others are left,
      in their order, and the mixer falls back to the first of them exactly if its mode
      is no longer listed. */
  lemma RemovalKeepsTheRest(m: Mixer, mode: int, now: int)
    ensures var r := RemoveMode(m, mode, now);
            if forall x :: x in m.modes ==> x == mode then r == m
            else
              && r.modes == Without(m.modes, mode) && r.modes != []
              && r == (if m.currentMode in m.modes && m.currentMode != mode then m.(modes := r.modes)
                       else m.(modes := r.modes, currentMode := r.modes[0], kind := KindOf(r.modes[0]),
                               lastSwitch := now))
  {
    WithoutAll(m.modes, mode);
    WithoutMembers(m.modes, mode);
  }

  // ---------------------------------------------------------------- statistics

  /** Packets wrapped under `mode` since the last effective `SetModes`. */
  function WrappedUnder(start: Mixer, ops: seq<Op>, mode: int): nat {
    if ops == [] then 0 else
    var earlier, op := ops[..|ops| - 1], ops[|ops| - 1];
    if op.DoSetModes? && op.modes != [] then 0 else
    var used := if !op.DoWrap? then -1
                else if |op.payload| >= 5 && op.payload[0] == 0x16 && op.payload[1] == 0x03 then 15
                else Run(start, earlier).mixer.currentMode;
    WrappedUnder(start, earlier, mode) + if op.DoWrap? && used == mode then 1 else 0
  }

  lemma StatsKept(m: Mixer, op: Op)
    requires !op.DoWrap? && !(op.DoSetModes? && op.modes != [])
    ensures Apply(m, op).stats == m.stats
  {
    if op.DoUnwrap? {
      UnwrapFailsExactly(m, op.data);
      if Unwrapping(m, op.data).0.Payload? {
        UnwrapSettles(m, op.data);
      }
    }
  }

  /** The statistics count, mode by mode, the packets wrapped: those that look like a
      TLS record under mode 15, all others under the mode that was current. */
  lemma {:induction false} StatsCountWraps(start: Mixer, ops: seq<Op>, mode: int)
    requires start.stats == map[]
    ensures var stats := Run(start, ops).mixer.stats;
            (if mode in stats then stats[mode] else 0) == WrappedUnder(start, ops, mode)
  {
    if ops != [] {
      var earlier, op := ops[..|ops| - 1], ops[|ops| - 1];
      StatsCountWraps(start, earlier, mode);
      if !op.DoWrap? && !(op.DoSetModes? && op.modes != []) {
        StatsKept(Run(start, earlier).mixer, op);
      }
    }
  }

  // ------------------------------------------------------------------- cadence

  /** `k` calls of `GetCurrentMask`. */
  function Observations(m: Mixer, k: nat, hour: int, now: nat -> int): Mixer {
    if k == 0 then m else Observe(Observations(m, k - 1, hour, now), hour, now(k - 1))
  }

  /** One call, in numbers: a changed half of the day takes over its list and counts as
      a switch; otherwise the mixer rotates exactly if more than the interval has passed. */
  lemma ObserveExactly(m: Mixer, hour: int, now: int)
    ensures Observe(m, hour, now) ==
            if m.timeBasedEnabled && (8 <= hour < 23) != m.isDayModeActive then
              m.(modes := if 8 <= hour < 23 then [7, 6, 10, 11, 12, 13, 0, 1, 14] else [5, 14, 1, 0, 7],
                 currentMode := if 8 <= hour < 23 then 7 else 5, kind := if 8 <= hour < 23 then VK else RuTube,
                 isDayModeActive := 8 <= hour < 23, lastSwitch := now)
            else if m.switchInterval > 0 && now - m.lastSwitch > m.switchInterval then Rotate(m, now)
            else m
  {}

  /** Calls more than an interval apart rotate once each. */
  lemma {:induction false} SpacedCallsRotate(m: Mixer, k: nat, hour: int, now: nat -> int)
    requires !m.timeBasedEnabled && m.switchInterval > 0 && m.modes != []
    requires now(0) - m.lastSwitch > m.switchInterval
    requires forall i: nat :: i < k ==> now(i + 1) - now(i) > m.switchInterval
    ensures Observations(m, k, hour, now) == Rotations(m, k, now)
    ensures var o := Observations(m, k, hour, now);
            o.modes == m.modes && !o.timeBasedEnabled && o.switchInterval == m.switchInterval
            && (k > 0 ==> o.lastSwitch == now(k - 1)) && (k == 0 ==> o == m)
  {
    if k > 0 {
      SpacedCallsRotate(m, k - 1, hour, now);
      ObserveExactly(Observations(m, k - 1, hour, now), hour, now(k - 1));
      if k > 1 {
        assert now(k - 2 + 1) - now(k - 2) > m.switchInterval;
      }
    }
  }

  /** Calls within an interval of the last switch change nothing. */
  lemma {:induction false} CloseCallsKeep(m: Mixer, k: nat, hour: int, now: nat -> int)
    requires !m.timeBasedEnabled
    requires forall i: nat :: i < k ==> now(i) - m.lastSwitch <= m.switchInterval
    ensures Observations(m, k, hour, now) == m
  {
    if k > 0 {
      CloseCallsKeep(m, k - 1, hour, now);
      ObserveExactly(m, hour, now(k - 1));
    }
  }
}
