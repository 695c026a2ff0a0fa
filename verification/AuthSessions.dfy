/** The expiring session table of internal/crypto/auth.go (`SessionAuthenticator`):
    cleaning it up never changes a later answer. */
module AuthSessions {
  import opened Bytes

  predicate IsValid(sessions: map<u64, int>, id: int, now: int) {
    id in sessions && now < sessions[id]
  }

  function Cleaned(sessions: map<u64, int>, now: int): map<u64, int> {
    map id | id in sessions && now <= sessions[id] :: sessions[id]
  }

  class SessionAuthenticator {
    var sessions: map<u64, int>

    constructor ()
      ensures sessions == map[]
    {
      sessions := map[];
    }

    method RegisterSession(id: u64, duration: int, now: int)
      modifies this
      ensures sessions == old(sessions)[id := now + duration]
    {
      sessions := sessions[id := now + duration];
    }

    method IsSessionValid(id: u64, now: int) returns (ok: bool)
      ensures ok <==> IsValid(sessions, id, now)
      ensures ok <==> id in sessions && now < sessions[id]
    {
      if id !in sessions {
        return false;
      }
      return now < sessions[id];
    }

    method RevokeSession(id: u64)
      modifies this
      ensures sessions == old(sessions) - {id}
    {
      sessions := sessions - {id};
    }

    /** One clock reading, entries visited in any order. */
    method Cleanup(now: int)
      modifies this
      ensures sessions == Cleaned(old(sessions), now)
    {
      var left := sessions.Keys;
      while left != {}
        invariant left <= sessions.Keys <= old(sessions).Keys
        invariant forall k :: k in sessions ==> sessions[k] == old(sessions)[k]
        invariant forall k :: k in sessions && k !in left ==> now <= sessions[k]
        invariant forall k :: k in old(sessions) && k !in sessions ==> now > old(sessions)[k]
        decreases left
      {
        var id :| id in left;
        left := left - {id};
        if now > sessions[id] {
          sessions := sessions - {id};
        }
      }
    }
  }

  datatype Op = Register(id: u64, duration: int) | Revoke(id: u64) | Clean

  /** Operations with the clock reading of each. */
  datatype Timed = Timed(op: Op, at: int)

  function Run(ops: seq<Timed>, cleaning: bool): map<u64, int> {
    if ops == [] then map[] else
    var m := Run(ops[..|ops| - 1], cleaning);
    var t := ops[|ops| - 1];
    match t.op
    case Register(id, duration) => m[id := t.at + duration]
    case Revoke(id) => m - {id}
    case Clean => if cleaning then Cleaned(m, t.at) else m
  }

  ghost predicate Monotone(ops: seq<Timed>, until: int) {
    && (forall i, j :: 0 <= i <= j < |ops| ==> ops[i].at <= ops[j].at)
    && (forall i :: 0 <= i < |ops| ==> ops[i].at <= until)
  }

  ghost predicate SameUnlessExpired(m: map<u64, int>, full: map<u64, int>, now: int) {
    && (forall k :: k in m ==> k in full && full[k] == m[k])
    && (forall k :: k in full && k !in m ==> now > full[k])
  }

  lemma {:induction false} CleaningLosesOnlyExpired(ops: seq<Timed>, now: int)
    requires Monotone(ops, now)
    ensures SameUnlessExpired(Run(ops, true), Run(ops, false), now)
  {
    if ops != [] {
      var earlier := ops[..|ops| - 1];
      var at := ops[|ops| - 1].at;
      assert Monotone(earlier, at);
      CleaningLosesOnlyExpired(earlier, at);
    }
  }

  /** After any operations under a clock that never runs backwards, every answer is
      what it would be had `Cleanup` never removed anything. */
  lemma CleanupInvisible(ops: seq<Timed>, id: int, now: int)
    requires Monotone(ops, now)
    ensures IsValid(Run(ops, true), id, now) <==> IsValid(Run(ops, false), id, now)
  {
    CleaningLosesOnlyExpired(ops, now);
  }

  ghost predicate Concerns(op: Op, id: u64) {
    (op.Register? || op.Revoke?) && op.id == id
  }

  lemma {:induction false} UntouchedSince(ops: seq<Timed>, n: nat, id: u64)
    requires n <= |ops| && forall i :: n <= i < |ops| ==> !Concerns(ops[i].op, id)
    ensures id in Run(ops, false) <==> id in Run(ops[..n], false)
    ensures id in Run(ops, false) ==> Run(ops, false)[id] == Run(ops[..n], false)[id]
  {
    if n == |ops| {
      assert ops[..n] == ops;
    } else {
      var earlier := ops[..|ops| - 1];
      UntouchedSince(earlier, n, id);
      assert earlier[..n] == ops[..n];
    }
  }

  /** A session whose last registration was at `t` for `duration` is valid before
      `t + duration` and not from then on, whatever was cleaned up in between; one that
      was last revoked is not valid. */
  lemma ValidUntilExpiry(ops: seq<Timed>, n: nat, id: u64, now: int)
    requires Monotone(ops, now) && n < |ops| && Concerns(ops[n].op, id)
    requires forall i :: n < i < |ops| ==> !Concerns(ops[i].op, id)
    ensures IsValid(Run(ops, true), id, now) <==> ops[n].op.Register? && now < ops[n].at + ops[n].op.duration
  {
    CleanupInvisible(ops, id, now);
    UntouchedSince(ops, n + 1, id);
    assert ops[..n + 1][..n] == ops[..n];
  }

  /** And one that was never registered never is. */
  lemma NeverRegistered(ops: seq<Timed>, id: u64, now: int)
    requires Monotone(ops, now) && forall i :: 0 <= i < |ops| ==> !Concerns(ops[i].op, id)
    ensures !IsValid(Run(ops, true), id, now)
  {
    CleanupInvisible(ops, id, now);
    UntouchedSince(ops, 0, id);
  }
}
