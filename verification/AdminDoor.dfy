/** The sign-in attempts table as the service changes it, one row appended per try that is not refused. */
module AdminDoor {
  import opened Prelude
  import opened AdminGate

  class Door {
    var attempts: seq<Attempt>
    ghost var log: seq<Attempt>
    ghost var gone: nat
    ghost var clock: int

    ghost function Now(): State
      reads this
    {
      State(attempts, log, gone, clock)
    }

    ghost predicate Valid()
      reads this
    {
      Inv(Now())
    }

    constructor (start: int)
      ensures Valid() && Now() == Start(start)
    {
      attempts, log, gone, clock := [], [], 0, start;
      new;
      Reachable(start, []);
    }

    /** How long this address has to wait; 0 means a try may be made at once. */
    method RetryIn(ip: Address, now: int) returns (wait: int)
      ensures wait == RetryAfter(attempts, ip, now)
      ensures wait >= 0
      ensures wait == 0 <==> !Reached(attempts, Some(ip), now, MAX_PER_ADDRESS) && !Reached(attempts, None, now, MAX_TOTAL)
    {
      hide Recent;
      var scopes := [(Some(ip), MAX_PER_ADDRESS), (None, MAX_TOTAL)];
      NoWaitNoLimit(attempts, ip, now);
      for i := 0 to |scopes|
        invariant forall k | 0 <= k < i :: WaitFor(attempts, scopes[k].0, now, scopes[k].1) == 0
      {
        var (scope, limit) := scopes[i];
        var recent := Recent(attempts, scope, now, limit);
        if |recent| >= limit {
          var seconds := (recent[|recent| - 1] + LOCKOUT - now) / SECOND + 1;
          wait := if seconds > 1 then seconds else 1;
          assert wait == WaitFor(attempts, scope, now, limit);
          assert i == 1 ==> WaitFor(attempts, scopes[0].0, now, scopes[0].1) == 0;
          return;
        }
      }
      assert WaitFor(attempts, scopes[0].0, now, scopes[0].1) == 0;
      assert WaitFor(attempts, scopes[1].0, now, scopes[1].1) == 0;
      wait := 0;
    }

    /** Checks a password unless locked out, when it is not even looked at and nothing is recorded. */
    method SignIn(ip: Address, right: bool, now: int) returns (signedIn: bool, wait: int)
      requires Valid() && now >= clock
      modifies this
      ensures Now() == Next(old(Now()), Op.SignIn(ip, right, now))
      ensures Valid()
      ensures wait == RetryAfter(old(attempts), ip, now)
      ensures signedIn <==> right && wait == 0
    {
      hide RetryAfter, Inv;
      SignInKeeps(Now(), Op.SignIn(ip, right, now));
      wait := RetryIn(ip, now);
      clock := now;
      if wait != 0 {
        return false, wait;
      }
      attempts := attempts + [Attempt(now, ip, right)];
      log := log + [Attempt(now, ip, right)];
      signedIn := right;
    }

    /** Deletes the rows past keeping. */
    method Clean(now: int)
      requires Valid() && now >= clock
      modifies this
      ensures Now() == Next(old(Now()), PruneOp(now))
      ensures Valid()
    {
      hide Inv;
      PruneKeeps(Now(), now);
      gone := gone + PrunedCount(attempts, now);
      attempts := Prune(attempts, now);
      clock := now;
    }
  }
}
