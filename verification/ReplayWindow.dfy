/** The sliding replay window of internal/shred/handshake.go (`ReplayProtection`);
    `Session.CheckReplay` keeps the same one. */
module ReplayWindow {
  import opened Bytes

  /** The last `k` elements, or all when there are fewer; none when `k <= 0`. */
  function LastK(s: seq<u64>, k: int): seq<u64> {
    if k <= 0 then [] else if |s| <= k then s else s[|s| - k..]
  }

  /** The accepted sequence numbers of a call history: a call is accepted when its
      number is not among the last `max` accepted ones. */
  function Accepted(calls: seq<u64>, max: int): seq<u64> {
    if calls == [] then [] else
    var earlier := Accepted(calls[..|calls| - 1], max);
    var s := calls[|calls| - 1];
    if s in LastK(earlier, max) then earlier else earlier + [s]
  }

  predicate Replayed(calls: seq<u64>, max: int, s: u64) {
    s in LastK(Accepted(calls, max), max)
  }

  ghost predicate SameKeys(seen: map<u64, bool>, window: seq<u64>) {
    && (forall k :: k in seen <==> k in window)
    && (forall k :: k in seen ==> seen[k])
  }

  /** The map holds exactly the window, and the window is without duplicates the last
      `max` accepted numbers of the whole history. */
  ghost predicate Tracks(seen: map<u64, bool>, window: seq<u64>, calls: seq<u64>, max: int) {
    && window == LastK(Accepted(calls, max), max)
    && Distinct(window)
    && SameKeys(seen, window)
  }

  lemma AcceptedPush(calls: seq<u64>, max: int, s: u64)
    ensures Accepted(calls + [s], max) ==
            if Replayed(calls, max, s) then Accepted(calls, max) else Accepted(calls, max) + [s]
  {
    assert (calls + [s])[..|calls|] == calls;
  }

  lemma PushKeeps(seen: map<u64, bool>, window: seq<u64>, s: u64)
    requires Distinct(window) && SameKeys(seen, window) && s !in window
    ensures Distinct(window + [s]) && SameKeys(seen[s := true], window + [s])
  {}

  lemma SlideWindow(accepted: seq<u64>, s: u64, max: int)
    ensures var w := LastK(accepted, max) + [s];
            LastK(accepted + [s], max) == if |w| > max then w[1..] else w
  {}

  lemma PopKeeps(seen: map<u64, bool>, window: seq<u64>)
    requires window != [] && Distinct(window) && SameKeys(seen, window)
    ensures Distinct(window[1..]) && SameKeys(seen - {window[0]}, window[1..])
  {
    assert window == [window[0]] + window[1..];
  }

  /** A replay leaves the window as it is; any other number enters it, and pushes the
      oldest out if it had become too long. */
  lemma TracksNext(seen: map<u64, bool>, window: seq<u64>, calls: seq<u64>, max: int, s: u64)
    requires Tracks(seen, window, calls, max)
    ensures s in seen && seen[s] <==> Replayed(calls, max, s)
    ensures s in seen ==> Tracks(seen, window, calls + [s], max)
    ensures s !in seen ==>
              var (w, m) := (window + [s], seen[s := true]);
              if |w| > max then Tracks(m - {w[0]}, w[1..], calls + [s], max) else Tracks(m, w, calls + [s], max)
  {
    AcceptedPush(calls, max, s);
    if s !in seen {
      PushKeeps(seen, window, s);
      SlideWindow(Accepted(calls, max), s, max);
      PopKeeps(seen[s := true], window + [s]);
    }
  }

  class ReplayProtection {
    var seen: map<u64, bool>
    var window: seq<u64>
    const maxSize: int
    ghost var calls: seq<u64>

    ghost predicate Valid()
      reads this
    {
      Tracks(seen, window, calls, maxSize)
    }

    constructor (maxSize: int)
      ensures Valid() && calls == [] && this.maxSize == maxSize
    {
      this.maxSize := maxSize;
      seen, window, calls := map[], [], [];
    }

    method CheckAndAdd(sequence: u64) returns (replay: bool)
      requires Valid()
      modifies this
      ensures Valid() && calls == old(calls) + [sequence]
      ensures replay <==> Replayed(old(calls), maxSize, sequence)
    {
      TracksNext(seen, window, calls, maxSize, sequence);
      calls := calls + [sequence];
      if sequence in seen && seen[sequence] {
        return true;
      }
      seen := seen[sequence := true];
      window := window + [sequence];
      if |window| > maxSize {
        var oldest := window[0];
        seen := seen - {oldest};
        window := window[1..];
      }
      return false;
    }

    method Reset()
      modifies this
      ensures Valid() && calls == []
    {
      seen, window, calls := map[], [], [];
    }
  }

  // ------------------------------------------------------- over whole histories

  /** No number is among the `max` before it. */
  predicate WellSpaced(s: seq<u64>, max: int) {
    forall i, j :: 0 <= i < j < |s| && j - i <= max ==> s[i] != s[j]
  }

  lemma LastKIndex(s: seq<u64>, k: int, i: nat)
    requires i < |s| && i >= |s| - k
    ensures s[i] in LastK(s, k)
  {
    if |s| > k {
      assert LastK(s, k)[i - (|s| - k)] == s[i];
    }
  }

  lemma {:induction false} AcceptedWellSpaced(calls: seq<u64>, max: int)
    ensures WellSpaced(Accepted(calls, max), max)
  {
    if calls != [] {
      var a := Accepted(calls[..|calls| - 1], max);
      AcceptedWellSpaced(calls[..|calls| - 1], max);
      var s := calls[|calls| - 1];
      if s !in LastK(a, max) {
        forall i | 0 <= i < |a| && |a| - i <= max
          ensures a[i] != s
        {
          LastKIndex(a, max, i);
        }
      }
    }
  }

  lemma LastOfSpaced(a: seq<u64>, max: nat)
    requires WellSpaced(a, max)
    ensures var w := LastK(a, max);
            && |w| == (if |a| <= max then |a| else max)
            && w == a[|a| - |w|..]
            && Distinct(w)
  {
    var w := LastK(a, max);
    var off := |a| - |w|;
    forall i, j | 0 <= i < j < |w|
      ensures w[i] != w[j]
    {
      assert w[i] == a[off + i] && w[j] == a[off + j];
    }
  }

  /** The window always holds the last `min(max, n)` of the `n` accepted numbers of
      the whole history, without duplicates. */
  lemma WindowDistinct(calls: seq<u64>, max: nat)
    ensures var a := Accepted(calls, max);
            var w := LastK(a, max);
            && |w| == (if |a| <= max then |a| else max)
            && w == a[|a| - |w|..]
            && Distinct(w)
  {
    hide Accepted;
    AcceptedWellSpaced(calls, max);
    LastOfSpaced(Accepted(calls, max), max);
  }

  /** A number is accepted again only after at least `max` other, pairwise distinct
      numbers were accepted in between. */
  lemma ReacceptedOnlyAfter(calls: seq<u64>, max: nat, i: nat, j: nat)
    requires i < j < |Accepted(calls, max)|
    requires Accepted(calls, max)[i] == Accepted(calls, max)[j]
    ensures var a := Accepted(calls, max);
            j - i > max && Distinct(a[j - max..j]) && a[j] !in a[j - max..j]
  {
    AcceptedWellSpaced(calls, max);
  }
}
