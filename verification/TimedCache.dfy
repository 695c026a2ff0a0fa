/** The timed replay cache of internal/shred/handshake.go (`HandshakeState`), and
    why its purging never changes an answer. */
module TimedCache {
  import opened Bytes

  const SECOND := 1_000_000_000
  const MINUTE := 60 * SECOND
  const HANDSHAKE_WINDOW := 30 * SECOND

  predicate Replays(seen: map<u64, int>, sequence: u64, window: int, now: int) {
    sequence in seen && now - seen[sequence] < window
  }

  /** What one sweep may leave: an entry goes only if it is older than a minute when
      the sweep ends, and stays only if it was not when the sweep began. */
  ghost predicate PurgedBetween(before: map<u64, int>, after: map<u64, int>, start: int, done: int) {
    && (forall k :: k in after ==> k in before && after[k] == before[k] && start - after[k] <= MINUTE)
    && (forall k :: k in before && k !in after ==> done - before[k] > MINUTE)
  }

  ghost predicate Ticking(clock: nat -> int) {
    forall i, j :: 0 <= i <= j ==> clock(i) <= clock(j)
  }

  class HandshakeState {
    var sequence: u64
    var lastSeen: map<u64, int>

    constructor ()
      ensures sequence == 0 && lastSeen == map[]
    {
      sequence, lastSeen := 0, map[];
    }

    method NextSequence() returns (next: u64)
      modifies this`sequence
      ensures next == sequence == (old(sequence) + 1) % 0x1_0000_0000_0000_0000
    {
      sequence := (sequence + 1) % 0x1_0000_0000_0000_0000;
      next := sequence;
    }

    method IsReplay(number: u64, windowSize: int, now: int) returns (replay: bool)
      ensures replay <==> Replays(lastSeen, number, windowSize, now)
      ensures replay <==> number in lastSeen && now - lastSeen[number] < windowSize
    {
      if number !in lastSeen {
        return false;
      }
      return now - lastSeen[number] < windowSize;
    }

    /** The sweep visits the entries in any order and reads the clock anew for each;
        `clock(i)` is the i-th reading of this call. */
    method MarkSeen(number: u64, clock: nat -> int) returns (done: int)
      requires Ticking(clock)
      modifies this`lastSeen
      ensures clock(0) <= done
      ensures PurgedBetween(old(lastSeen)[number := clock(0)], lastSeen, clock(0), done)
      ensures done - clock(0) <= 60_000_000_000 ==> number in lastSeen && lastSeen[number] == clock(0)
    {
      lastSeen := lastSeen[number := clock(0)];
      ghost var before := lastSeen;
      var left := lastSeen.Keys;
      var i := 0;
      while left != {}
        invariant left <= lastSeen.Keys <= before.Keys
        invariant forall k :: k in lastSeen ==> lastSeen[k] == before[k]
        invariant forall k :: k in lastSeen && k !in left ==> clock(0) - before[k] <= MINUTE
        invariant forall k :: k in before && k !in lastSeen ==> clock(i) - before[k] > MINUTE
        decreases left
      {
        var k :| k in left;
        left := left - {k};
        i := i + 1;
        if clock(i) - lastSeen[k] > MINUTE {
          lastSeen := lastSeen - {k};
        }
      }
      done := clock(i);
    }

    method Reset()
      modifies this
      ensures sequence == 0 && lastSeen == map[]
    {
      lastSeen, sequence := map[], 0;
    }
  }

  // ------------------------------------------------------------------ all runs

  /** `full` is the cache as it would be if nothing were ever purged. */
  datatype Cache = Cache(seen: map<u64, int>, full: map<u64, int>, now: int)

  /** One handshake attempt handled from check to mark, a call of `MarkSeen` whatever
      came before it, or a reset. */
  datatype Event =
    | Accepted(sequence: u64, check: int, mark: int)
    | Noted(sequence: u64, mark: int)
    | Refused(sequence: u64, check: int)
    | Cleared(at: int)

  predicate IsMark(e: Event) {
    e.Accepted? || e.Noted?
  }

  /** `MarkSeen`. */
  ghost predicate Marks(c: Cache, s: u64, mark: int, d: Cache) {
    d.full == c.full[s := mark] && PurgedBetween(c.seen[s := mark], d.seen, mark, d.now)
  }

  ghost predicate Next(c: Cache, e: Event, d: Cache) {
    match e
    case Accepted(s, check, mark) =>
      && c.now <= check <= mark <= d.now
      && !Replays(c.seen, s, HANDSHAKE_WINDOW, check)
      && Marks(c, s, mark, d)
    case Noted(s, mark) => c.now <= mark <= d.now && Marks(c, s, mark, d)
    case Refused(s, check) =>
      c.now <= check == d.now && Replays(c.seen, s, HANDSHAKE_WINDOW, check) && d.seen == c.seen && d.full == c.full
    case Cleared(at) =>
      c.now <= at == d.now && d.seen == d.full == map[]
  }

  ghost predicate IsRun(states: seq<Cache>, events: seq<Event>) {
    && |states| == |events| + 1
    && states[0].seen == states[0].full == map[]
    && forall i :: 0 <= i < |events| ==> Next(states[i], events[i], states[i + 1])
  }

  ghost predicate Agrees(c: Cache) {
    && (forall k :: k in c.seen ==> k in c.full && c.full[k] == c.seen[k])
    && (forall k :: k in c.full && k !in c.seen ==> c.now - c.full[k] > MINUTE)
  }

  lemma NextAgrees(c: Cache, e: Event, d: Cache)
    requires Agrees(c) && Next(c, e, d)
    ensures Agrees(d)
  {
    if IsMark(e) {
      forall k | k in d.full && k !in d.seen
        ensures d.now - d.full[k] > MINUTE
      {
        assert k in c.seen[e.sequence := e.mark] || (k in c.full && k !in c.seen);
      }
    }
  }

  lemma {:induction false} RunAgrees(states: seq<Cache>, events: seq<Event>, i: nat)
    requires IsRun(states, events) && i < |states|
    ensures Agrees(states[i])
  {
    if i > 0 {
      RunAgrees(states, events, i - 1);
      NextAgrees(states[i - 1], events[i - 1], states[i]);
    }
  }

  /** Purging is invisible: after any calls of `MarkSeen` and `Reset`, at any later time,
      the cache answers as the unpurged one does for every window up to a minute. */
  lemma PurgeInvisible(states: seq<Cache>, events: seq<Event>, i: nat, sequence: u64, window: int, now: int)
    requires IsRun(states, events) && i < |states|
    requires window <= 60_000_000_001 && now >= states[i].now
    ensures Replays(states[i].seen, sequence, window, now) <==> Replays(states[i].full, sequence, window, now)
  {
    RunAgrees(states, events, i);
  }

  /** One nanosecond more and some run tells the two apart. */
  lemma LongerWindowVisible(window: int)
    requires window > 60_000_000_001
    ensures exists states: seq<Cache>, events: seq<Event> ::
              && IsRun(states, events)
              && var c := states[|events|];
                 Replays(c.full, 1, window, c.now) && !Replays(c.seen, 1, window, c.now)
  {
    var late := MINUTE + 1;
    var c0 := Cache(map[], map[], 0);
    var c1 := Cache(map[1 := 0], map[1 := 0], 0);
    var c2 := Cache(map[2 := late], map[1 := 0, 2 := late], late);
    var events := [Accepted(1, 0, 0), Accepted(2, late, late)];
    var states := [c0, c1, c2];
    assert map[][1 := 0] == map[1 := 0];
    assert Next(c0, events[0], c1);
    assert c1.full[2 := late] == c2.full;
    assert Next(c1, events[1], c2);
    assert IsRun(states, events);
    assert states[|events|] == c2;
  }

  // ------------------------------------------------------- no double acceptance

  lemma {:induction false} MarkRemembered(states: seq<Cache>, events: seq<Event>, i: nat, j: nat)
    requires IsRun(states, events) && i < j < |states|
    requires IsMark(events[i])
    requires forall k :: i < k < j ==> !events[k].Cleared?
    ensures events[i].sequence in states[j].full
    ensures states[j].full[events[i].sequence] >= events[i].mark
    ensures states[j].now >= events[i].mark
  {
    assert Next(states[j - 1], events[j - 1], states[j]);
    if i < j - 1 {
      MarkRemembered(states, events, i, j - 1);
    }
  }

  /** Handshakes handled one after another never accept one sequence number twice
      within thirty seconds, unless the state was reset in between. */
  lemma NoDoubleAcceptance(states: seq<Cache>, events: seq<Event>, i: nat, j: nat)
    requires IsRun(states, events) && i < j < |events|
    requires IsMark(events[i]) && events[j].Accepted? && events[i].sequence == events[j].sequence
    requires forall k :: i < k < j ==> !events[k].Cleared?
    ensures events[j].check - events[i].mark >= 30_000_000_000
  {
    MarkRemembered(states, events, i, j);
    assert Next(states[j], events[j], states[j + 1]);
    PurgeInvisible(states, events, j, events[j].sequence, HANDSHAKE_WINDOW, events[j].check);
  }
}
