/** The mask mixer of internal/shred/mask_mixer.go as a value: what each operation
    makes of the state, and what holds over every sequence of operations. */
module MixerModel {
  import opened Bytes
  import opened Masks

  const VK_MODE := 7
  const BROWSER_MODE := 15
  const DAY_MODES: seq<int> := [7, 6, 10, 11, 12, 13, 0, 1, 14]
  const NIGHT_MODES: seq<int> := [5, 14, 1, 0, 7]

  /** `kind` is the kind of the current mask. */
  datatype Mixer = Mixer(
    currentMode: int, kind: Kind, modes: seq<int>, lastSwitch: int, switchInterval: int,
    stats: map<int, nat>, packetsWrapped: nat, packetsUnwrapped: nat, errorsCount: nat,
    timeBasedEnabled: bool, isDayModeActive: bool)

  predicate IsDay(hour: int) {
    8 <= hour < 23
  }

  function New(interval: int, hour: int, now: int): Mixer {
    var modes := if IsDay(hour) then DAY_MODES else NIGHT_MODES;
    Mixer(modes[0], KindOf(modes[0]), modes, now, interval, map[], 0, 0, 0, true, IsDay(hour))
  }

  function Select(m: Mixer, mode: int): Mixer {
    m.(currentMode := mode, kind := KindOf(mode))
  }

  function SwitchTo(m: Mixer, mode: int): Mixer {
    if m.currentMode == mode then m else Select(m, mode)
  }

  function SetModes(m: Mixer, modes: seq<int>, now: int): Mixer {
    if modes == [] then m else
    Select(m, modes[0]).(modes := modes, lastSwitch := now, stats := map[], packetsWrapped := 0,
                         packetsUnwrapped := 0, errorsCount := 0, timeBasedEnabled := false)
  }

  function AddMode(m: Mixer, mode: int): Mixer {
    if mode in m.modes then m else m.(modes := m.modes + [mode])
  }

  function Without(modes: seq<int>, mode: int): seq<int> {
    if modes == [] then [] else
    Without(modes[..|modes| - 1], mode)
    + if modes[|modes| - 1] != mode then [modes[|modes| - 1]] else []
  }

  function RemoveMode(m: Mixer, mode: int, now: int): Mixer {
    var rest := Without(m.modes, mode);
    if rest == [] then m
    else if m.currentMode in rest then m.(modes := rest)
    else Select(m, rest[0]).(modes := rest, lastSwitch := now)
  }

  /** First position of `mode`, or -1. */
  function IndexOf(modes: seq<int>, mode: int): (i: int)
    ensures -1 <= i < |modes|
    ensures i >= 0 ==> modes[i] == mode && mode !in modes[..i]
    ensures i == -1 <==> mode !in modes
  {
    if modes == [] then -1
    else if modes[0] == mode then 0
    else
      var r := IndexOf(modes[1..], mode);
      if r == -1 then -1 else r + 1
  }

  function NextMode(modes: seq<int>, current: int): int
    requires modes != []
  {
    modes[(IndexOf(modes, current) + 1) % |modes|]
  }

  function Rotate(m: Mixer, now: int): Mixer {
    if m.modes == [] then m else Select(m, NextMode(m.modes, m.currentMode)).(lastSwitch := now)
  }

  predicate SwitchesHalf(m: Mixer, hour: int) {
    m.timeBasedEnabled && IsDay(hour) != m.isDayModeActive
  }

  predicate IsDue(m: Mixer, now: int) {
    m.switchInterval > 0 && now - m.lastSwitch > m.switchInterval
  }

  function CheckTime(m: Mixer, hour: int, now: int): Mixer {
    if !SwitchesHalf(m, hour) then m else
    var modes := if IsDay(hour) then DAY_MODES else NIGHT_MODES;
    Select(m, modes[0]).(modes := modes, isDayModeActive := IsDay(hour), lastSwitch := now)
  }

  /** `GetCurrentMask`. */
  function Observe(m: Mixer, hour: int, now: int): Mixer {
    var t := CheckTime(m, hour, now);
    if IsDue(t, now) then Rotate(t, now) else t
  }

  /** `SelectMask`. */
  function ModeFor(m: Mixer, payload: seq<byte>): int {
    if TlsLike(payload) then BROWSER_MODE else m.currentMode
  }

  function AfterWrap(m: Mixer, payload: seq<byte>): Mixer {
    var mode := ModeFor(m, payload);
    m.(packetsWrapped := m.packetsWrapped + 1,
       stats := m.stats[mode := if mode in m.stats then m.stats[mode] + 1 else 1])
  }

  /** The first listed mode whose mask does not fail, or the length of the list. */
  function FirstTaker(modes: seq<int>, data: seq<byte>): (i: nat)
    ensures i <= |modes|
  {
    if modes == [] then 0
    else if !UnwrapBy(KindOf(modes[0]), data).Fails? then 0
    else 1 + FirstTaker(modes[1..], data)
  }

  function Unwrapping(m: Mixer, data: seq<byte>): (Unwrapped, Mixer) {
    var r := UnwrapBy(m.kind, data);
    if r.Payload? then (r, m.(packetsUnwrapped := m.packetsUnwrapped + 1))
    else if !r.Fails? then (r, m)
    else
      var i := FirstTaker(m.modes, data);
      if i == |m.modes| then (Fails(UnwrapFailed), m.(errorsCount := m.errorsCount + 1)) else
      var mode := m.modes[i];
      var t := UnwrapBy(KindOf(mode), data);
      if t.Payload? then (t, Select(m, mode).(packetsUnwrapped := m.packetsUnwrapped + 1)) else (t, m)
  }

  predicate Rejects(kind: Kind, data: seq<byte>) {
    UnwrapBy(kind, data).Fails?
  }

  /** A listed mask took what the current one rejected. */
  predicate FallsBack(m: Mixer, data: seq<byte>) {
    Rejects(m.kind, data) && Unwrapping(m, data).0.Payload?
  }

  // ------------------------------------------------ adaptive unwrap, as a search

  function KindsOf(modes: seq<int>): (c: seq<Kind>)
    ensures |c| == |modes|
    ensures forall i :: 0 <= i < |modes| ==> c[i] == KindOf(modes[i])
  {
    if modes == [] then [] else [KindOf(modes[0])] + KindsOf(modes[1..])
  }

  function Candidates(m: Mixer): (c: seq<Kind>)
    ensures |c| == 1 + |m.modes|
    ensures c[0] == m.kind
  {
    [m.kind] + KindsOf(m.modes)
  }

  lemma {:induction false} FirstTakerIsFirst(modes: seq<int>, data: seq<byte>)
    ensures forall j :: 0 <= j < FirstTaker(modes, data) ==> Rejects(KindOf(modes[j]), data)
    ensures FirstTaker(modes, data) < |modes| ==> !Rejects(KindOf(modes[FirstTaker(modes, data)]), data)
  {
    if modes != [] && Rejects(KindOf(modes[0]), data) {
      FirstTakerIsFirst(modes[1..], data);
      forall j | 0 <= j < FirstTaker(modes, data)
        ensures Rejects(KindOf(modes[j]), data)
      {
        if j > 0 {
          assert modes[j] == modes[1..][j - 1];
        }
      }
    }
  }

  /** The outcome is that of the first candidate, in the order current mask, then
      the list, that does not reject. */
  lemma UnwrapIsFirstAccepting(m: Mixer, data: seq<byte>, i: nat)
    requires i < |Candidates(m)|
    requires !Rejects(Candidates(m)[i], data)
    requires forall j :: 0 <= j < i ==> Rejects(Candidates(m)[j], data)
    ensures Unwrapping(m, data).0 == UnwrapBy(Candidates(m)[i], data)
  {
    hide UnwrapBy, KindOf;
    FirstTakerIsFirst(m.modes, data);
    if i > 0 {
      var f := FirstTaker(m.modes, data);
      assert Rejects(Candidates(m)[0], data);
      assert Candidates(m)[i] == KindOf(m.modes[i - 1]);
      forall j | 0 <= j < i - 1
        ensures Rejects(KindOf(m.modes[j]), data)
      {
        assert Candidates(m)[j + 1] == KindOf(m.modes[j]);
      }
      assert f == i - 1;
    }
  }

  lemma AllCandidatesReject(m: Mixer, data: seq<byte>)
    ensures (forall i :: 0 <= i < |Candidates(m)| ==> Rejects(Candidates(m)[i], data)) <==>
            Rejects(m.kind, data) && FirstTaker(m.modes, data) == |m.modes|
  {
    hide Rejects;
    FirstTakerIsFirst(m.modes, data);
    var f := FirstTaker(m.modes, data);
    assert Candidates(m)[0] == m.kind;
    if f < |m.modes| {
      assert Candidates(m)[f + 1] == KindOf(m.modes[f]);
    } else {
      forall i | 0 < i < |Candidates(m)|
        ensures Candidates(m)[i] == KindOf(m.modes[i - 1]) && Rejects(Candidates(m)[i], data)
      {
      }
    }
  }

  /** It fails exactly when every candidate rejects, and then only the error count moves. */
  lemma UnwrapFailsExactly(m: Mixer, data: seq<byte>)
    ensures Unwrapping(m, data).0.Fails? <==> forall i :: 0 <= i < |Candidates(m)| ==> Rejects(Candidates(m)[i], data)
    ensures Unwrapping(m, data).0.Fails? ==>
              Unwrapping(m, data) == (Fails(UnwrapFailed), m.(errorsCount := m.errorsCount + 1))
  {
    hide Candidates, UnwrapBy;
    AllCandidatesReject(m, data);
    FirstTakerIsFirst(m.modes, data);
  }

  /** After a success the new current mask alone takes the same data the same way,
      and a repeat changes nothing but the count. */
  lemma UnwrapSettles(m: Mixer, data: seq<byte>)
    requires Unwrapping(m, data).0.Payload?
    ensures var (r, n) := Unwrapping(m, data);
            && UnwrapBy(n.kind, data) == r
            && Unwrapping(n, data) == (r, n.(packetsUnwrapped := n.packetsUnwrapped + 1))
            && n == m.(currentMode := n.currentMode, kind := n.kind, packetsUnwrapped := m.packetsUnwrapped + 1)
            && (n.currentMode == m.currentMode || n.currentMode in m.modes)
  {}

  // ---------------------------------------------------------------- rotation orbit

  /** `k` rotations; `now(i)` is the clock reading of the i-th. */
  function Rotations(m: Mixer, k: nat, now: nat -> int): Mixer {
    if k == 0 then m else Rotate(Rotations(m, k - 1, now), now(k - 1))
  }

  /** After `k` rotations at these times the mixer is on `mode`; beside the mask and the
      time of the last one, nothing has changed. */
  ghost predicate TurnedTo(r: Mixer, m: Mixer, mode: int, k: nat, now: nat -> int) {
    && r.currentMode == mode
    && (k > 0 ==> r == m.(currentMode := mode, kind := KindOf(mode), lastSwitch := now(k - 1)))
    && (k == 0 ==> r == m)
  }

  lemma PrefixMembers(modes: seq<int>, n: int)
    requires n <= |modes|
    ensures forall q :: 0 <= q < n ==> modes[q] in modes[..n]
  {
    forall q | 0 <= q < n
      ensures modes[q] in modes[..n]
    {
      assert modes[..n][q] == modes[q];
    }
  }

  lemma FirstIndex(modes: seq<int>, i: nat)
    requires i < |modes| && modes[i] !in modes[..i]
    ensures IndexOf(modes, modes[i]) == i
  {
    var p := IndexOf(modes, modes[i]);
    PrefixMembers(modes, p);
    PrefixMembers(modes, i);
  }

  /** A rotation goes to the mode after the first occurrence of the current one, or to
      the first mode if that is not listed. */
  lemma RotateGoesOn(m: Mixer, now: int)
    requires m.modes != []
    ensures var r := Rotate(m, now);
            && (forall i :: 0 <= i < |m.modes| && m.modes[i] == m.currentMode && m.currentMode !in m.modes[..i] ==>
                  r.currentMode == m.modes[(i + 1) % |m.modes|])
            && (m.currentMode !in m.modes ==> r.currentMode == m.modes[0])
            && r == m.(currentMode := r.currentMode, kind := KindOf(r.currentMode), lastSwitch := now)
  {
    hide KindOf, IndexOf;
    DivUnique(0, |m.modes|, 0, 0);
    forall i | 0 <= i < |m.modes| && m.modes[i] == m.currentMode && m.currentMode !in m.modes[..i]
      ensures IndexOf(m.modes, m.currentMode) == i
    {
      FirstIndex(m.modes, i);
    }
  }

  lemma WrapAround(p: nat, n: nat)
    requires p < n
    ensures (p + 1) % n == if p + 1 == n then 0 else p + 1
  {
    if p + 1 == n {
      DivUnique(p + 1, n, 1, 0);
    } else {
      DivUnique(p + 1, n, 0, p + 1);
    }
  }

  /** One rotation from a mode that is the first of its value moves one place on. */
  lemma StepFrom(modes: seq<int>, p: nat)
    requires p < |modes| && modes[p] !in modes[..p]
    ensures NextMode(modes, modes[p]) == modes[if p + 1 == |modes| then 0 else p + 1]
  {
    FirstIndex(modes, p);
    WrapAround(p, |modes|);
  }

  /** Position after `k` moves round a ring of `n` from position `i`. */
  function Around(n: nat, i: nat, k: nat): (p: nat)
    requires i < n
    ensures p < n
  {
    if k == 0 then i else
    var p := Around(n, i, k - 1);
    if p + 1 == n then 0 else p + 1
  }

  lemma NextRemainder(x: nat, n: nat)
    requires n > 0
    ensures (x + 1) % n == if x % n + 1 == n then 0 else x % n + 1
  {
    var q, r := x / n, x % n;
    assert x == q * n + r;
    if r + 1 == n {
      DivUnique(x + 1, n, q + 1, 0);
    } else {
      DivUnique(x + 1, n, q, r + 1);
    }
  }

  lemma {:induction false} AroundIsRemainder(n: nat, i: nat, k: nat)
    requires i < n
    ensures Around(n, i, k) == (i + k) % n
  {
    if k == 0 {
      DivUnique(i, n, 0, i);
    } else {
      AroundIsRemainder(n, i, k - 1);
      NextRemainder(i + k - 1, n);
    }
  }

  lemma NotTurned(m: Mixer, now: nat -> int)
    ensures TurnedTo(Rotations(m, 0, now), m, m.currentMode, 0, now)
  {}

  /** A rotation that starts on the mode at `p`, the first of its value. */
  lemma TurnOnce(r: Mixer, m: Mixer, p: nat, k: nat, now: nat -> int)
    requires p < |m.modes| && m.modes[p] !in m.modes[..p] && TurnedTo(r, m, m.modes[p], k, now)
    ensures TurnedTo(Rotate(r, now(k)), m, m.modes[if p + 1 == |m.modes| then 0 else p + 1], k + 1, now)
  {
    StepFrom(m.modes, p);
  }

  lemma FirstOfDistinct(modes: seq<int>, p: nat)
    requires Distinct(modes) && p < |modes|
    ensures modes[p] !in modes[..p]
  {
    forall q | 0 <= q < p
      ensures modes[..p][q] != modes[p]
    {}
  }

  lemma {:induction false} OrbitAround(m: Mixer, i: nat, k: nat, now: nat -> int)
    requires Distinct(m.modes) && i < |m.modes| && m.currentMode == m.modes[i]
    ensures TurnedTo(Rotations(m, k, now), m, m.modes[Around(|m.modes|, i, k)], k, now)
  {
    hide Rotate, Distinct, TurnedTo;
    if k == 0 {
      NotTurned(m, now);
    } else {
      var p := Around(|m.modes|, i, k - 1);
      OrbitAround(m, i, k - 1, now);
      FirstOfDistinct(m.modes, p);
      TurnOnce(Rotations(m, k - 1, now), m, p, k - 1, now);
    }
  }

  /** With distinct modes, `k` rotations from the mode at position `i` reach the one at
      position `i + k` around the ring, and change nothing but mode, mask and time. */
  lemma OrbitOfDistinct(m: Mixer, i: nat, k: nat, now: nat -> int)
    requires Distinct(m.modes) && i < |m.modes| && m.currentMode == m.modes[i]
    ensures var r := Rotations(m, k, now);
            && r.currentMode == m.modes[(i + k) % |m.modes|]
            && (k > 0 ==> r.kind == KindOf(r.currentMode) && r.lastSwitch == now(k - 1))
            && r == m.(currentMode := r.currentMode, kind := r.kind, lastSwitch := r.lastSwitch)
  {
    OrbitAround(m, i, k, now);
    AroundIsRemainder(|m.modes|, i, k);
  }

  lemma {:induction false} AroundOneTurn(n: nat, i: nat, k: nat)
    requires i < n && k <= n
    ensures Around(n, i, k) == if i + k < n then i + k else i + k - n
  {
    if k > 0 {
      AroundOneTurn(n, i, k - 1);
    }
  }

  /** So `n` rotations visit every mode exactly once. */
  lemma FullTurn(m: Mixer, i: nat, j: nat, now: nat -> int)
    requires Distinct(m.modes) && i < |m.modes| && j < |m.modes| && m.currentMode == m.modes[i]
    ensures var k := if i < j then j - i else j + |m.modes| - i;
            && 1 <= k <= |m.modes|
            && Rotations(m, k, now).currentMode == m.modes[j]
            && forall l :: 1 <= l <= |m.modes| && Rotations(m, l, now).currentMode == m.modes[j] ==> l == k
  {
    var n := |m.modes|;
    var k := if i < j then j - i else j + n - i;
    hide Rotations, Around;
    OrbitAround(m, i, k, now);
    AroundOneTurn(n, i, k);
    forall l | 1 <= l <= n && Rotations(m, l, now).currentMode == m.modes[j]
      ensures l == k
    {
      OrbitAround(m, i, l, now);
      AroundOneTurn(n, i, l);
    }
  }

  lemma NotEarlier(modes: seq<int>, d: nat, p: nat)
    requires p < d <= |modes| && Distinct(modes[..d])
    ensures modes[p] !in modes[..p]
  {
    forall q | 0 <= q < p
      ensures modes[..p][q] != modes[p]
    {
      assert modes[..d][q] != modes[..d][p];
    }
  }

  lemma LassoStep(r: Mixer, m: Mixer, f: nat, d: nat, p: nat, k: nat, now: nat -> int)
    requires f < d < |m.modes| && Distinct(m.modes[..d]) && m.modes[d] == m.modes[f] && p < d
    requires TurnedTo(r, m, m.modes[p], k, now)
    ensures TurnedTo(Rotate(r, now(k)), m, m.modes[if p + 1 == d then f else p + 1], k + 1, now)
  {
    NotEarlier(m.modes, d, p);
    TurnOnce(r, m, p, k, now);
  }

  /** Position after `k` moves along `0..d` that fall back from `d` to `f`. */
  function Lasso(f: nat, d: nat, k: nat): (p: nat)
    requires f < d
    ensures p < d
  {
    if k == 0 then 0 else
    var p := Lasso(f, d, k - 1);
    if p + 1 == d then f else p + 1
  }

  lemma {:induction false} LassoOrbit(m: Mixer, f: nat, d: nat, k: nat, now: nat -> int)
    requires f < d < |m.modes| && Distinct(m.modes[..d]) && m.modes[d] == m.modes[f]
    requires m.currentMode == m.modes[0]
    ensures TurnedTo(Rotations(m, k, now), m, m.modes[Lasso(f, d, k)], k, now)
  {
    hide Rotate, Distinct, TurnedTo;
    if k == 0 {
      NotTurned(m, now);
    } else {
      LassoOrbit(m, f, d, k - 1, now);
      LassoStep(Rotations(m, k - 1, now), m, f, d, Lasso(f, d, k - 1), k - 1, now);
    }
  }

  lemma {:induction false} LassoHead(f: nat, d: nat, k: nat)
    requires f < d && k < d
    ensures Lasso(f, d, k) == k
  {
    if k > 0 {
      LassoHead(f, d, k - 1);
    }
  }

  lemma {:induction false} LassoTail(f: nat, d: nat, k: nat)
    requires f < d && k >= f
    ensures Lasso(f, d, k) == f + Around(d - f, 0, k - f)
  {
    if k == f {
      LassoHead(f, d, f);
    } else {
      LassoTail(f, d, k - 1);
    }
  }

  /** If position `d` is the first to repeat an earlier one, `f`, rotation from the
      front ends up in positions `f..d` for ever: what follows `d` is never used. */
  lemma OrbitWithRepeat(m: Mixer, f: nat, d: nat, k: nat, now: nat -> int)
    requires f < d < |m.modes| && Distinct(m.modes[..d]) && m.modes[d] == m.modes[f]
    requires m.currentMode == m.modes[0]
    ensures var r := Rotations(m, k, now);
            && r.currentMode == m.modes[if k < d then k else f + (k - f) % (d - f)]
            && (k > 0 ==> r.kind == KindOf(r.currentMode) && r.lastSwitch == now(k - 1))
            && r == m.(currentMode := r.currentMode, kind := r.kind, lastSwitch := r.lastSwitch)
  {
    hide Rotations, Lasso, Distinct, KindOf, Around;
    LassoOrbit(m, f, d, k, now);
    if k >= d {
      LassoTail(f, d, k);
      AroundIsRemainder(d - f, 0, k - f);
    } else {
      LassoHead(f, d, k);
    }
  }
}
