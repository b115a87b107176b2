/** The lockout told by the tries themselves, whatever the table holds. */
module AdminTries {
  import opened Prelude
  import opened AdminGate

  predicate From(ip: Address, scope: Option<Address>) { scope.Some? ==> ip == scope.value }

  /** Earlier tries from an address, or from anywhere, not before `from`, that were let through and had the wrong password. */
  function FailedTries(ops: seq<Op>, scope: Option<Address>, from: int): nat
    decreases |ops|, 0
  {
    if ops == [] then 0 else
      var front, op := ops[..|ops| - 1], ops[|ops| - 1];
      FailedTries(front, scope, from)
        + if op.SignIn? && !op.right && From(op.ip, scope) && op.now >= from && !LockedOut(front, op.ip, op.now) then 1 else 0
  }

  /** Five such tries from this address, or thirty from anywhere, in the last fifteen minutes. */
  predicate LockedOut(ops: seq<Op>, ip: Address, now: int)
    decreases |ops|, 1
  {
    FailedTries(ops, Some(ip), now - LOCKOUT) >= MAX_PER_ADDRESS || FailedTries(ops, None, now - LOCKOUT) >= MAX_TOTAL
  }

  lemma RecordedCount(log: seq<Attempt>, a: Attempt, scope: Option<Address>, from: int)
    ensures CountSince(FailureTimes(log + [a], scope), from)
      == CountSince(FailureTimes(log, scope), from) + if Failed(a, scope) && a.at >= from then 1 else 0
  {
    assert (log + [a])[..|log|] == log;
    var times := FailureTimes(log, scope);
    assert (times + [a.at])[..|times|] == times;
    assert times + [] == times;
  }

  /** The log holds exactly the tries let through, each with what became of it. */
  lemma {:induction false} LogTells(start: int, ops: seq<Op>, scope: Option<Address>, from: int)
    requires Monotone(Start(start), ops)
    ensures CountSince(FailureTimes(After(Start(start), ops).log, scope), from) == FailedTries(ops, scope, from)
    decreases |ops|, 0
  {
    if ops == [] {
      assert FailureTimes([], scope) == [];
    } else {
      hide Next, FailureTimes, CountSince, LockedOut;
      var front, op := ops[..|ops| - 1], ops[|ops| - 1];
      LogTells(start, front, scope, from);
      NextCount(After(Start(start), front), op, scope, from);
      if op.SignIn? { RefusedExactly(start, front, op.ip, op.now); }
    }
  }

  lemma NextCount(s: State, op: Op, scope: Option<Address>, from: int)
    ensures CountSince(FailureTimes(Next(s, op).log, scope), from) == CountSince(FailureTimes(s.log, scope), from)
      + if op.SignIn? && !op.right && From(op.ip, scope) && op.now >= from && RetryAfter(s.attempts, op.ip, op.now) == 0 then 1 else 0
  {
    hide RetryAfter, FailureTimes, CountSince, Prune, PrunedCount;
    if op.SignIn? { RecordedCount(s.log, Attempt(op.now, op.ip, op.right), scope, from); }
  }

  /**
   Under a clock that does not go back, a try is refused if and only if five tries from its address, or thirty from
   anywhere, were let through with the wrong password in the fifteen minutes up to it.
   */
  lemma {:induction false} RefusedExactly(start: int, ops: seq<Op>, ip: Address, now: int)
    requires Monotone(Start(start), ops) && now >= After(Start(start), ops).clock
    ensures RetryAfter(After(Start(start), ops).attempts, ip, now) != 0 <==> LockedOut(ops, ip, now)
    decreases |ops|, 1
  {
    hide After, Monotone, RetryAfter, FailureTimes, CountSince, FailedTries, TimesOrdered, WindowsHold, TableIsTail;
    var s := After(Start(start), ops);
    Reachable(start, ops);
    NoWaitNoLimit(s.attempts, ip, now);
    LogTells(start, ops, Some(ip), now - LOCKOUT);
    LogTells(start, ops, None, now - LOCKOUT);
    TailCounts(s, Some(ip), now - LOCKOUT);
    TailCounts(s, None, now - LOCKOUT);
  }

  lemma {:induction false} PrunedAreOld(attempts: seq<Attempt>, now: int)
    ensures forall a :: a in Prune(attempts, now) <==> a in attempts && a.at >= now - KEPT
  {
    if attempts != [] {
      PrunedAreOld(attempts[..|attempts| - 1], now);
      assert attempts == attempts[..|attempts| - 1] + [attempts[|attempts| - 1]];
    }
  }

  /** A clean-up leaves exactly the attempts of the last 90 days. */
  lemma {:induction false} CleanUpForgets(start: int, ops: seq<Op>, now: int)
    requires Monotone(Start(start), ops) && now >= After(Start(start), ops).clock
    ensures var s := After(Start(start), ops);
      forall a :: a in Next(s, PruneOp(now)).attempts <==> a in s.log && a.at >= now - KEPT
  {
    hide After, Monotone, TimesOrdered, WindowsHold;
    var s := After(Start(start), ops);
    Reachable(start, ops);
    PrunedAreOld(s.attempts, now);
    assert s.log == s.log[..s.gone] + s.attempts;
  }

  /** Five wrong passwords from one address lock it out, with nobody else about. */
  lemma SixthIsRefused(start: int, ip: Address)
    ensures var wrong := Op.SignIn(ip, false, start);
      !LockedOut([wrong, wrong, wrong, wrong], ip, start) && LockedOut([wrong, wrong, wrong, wrong, wrong], ip, start)
  {
    var wrong := Op.SignIn(ip, false, start);
    Wrongs(start, ip, 4);
    Wrongs(start, ip, 5);
    assert seq(4, _ => wrong) == [wrong, wrong, wrong, wrong] && seq(5, _ => wrong) == [wrong, wrong, wrong, wrong, wrong];
  }

  lemma {:induction false} Wrongs(start: int, ip: Address, n: nat)
    requires n <= 5
    ensures FailedTries(seq(n, _ => Op.SignIn(ip, false, start)), Some(ip), start - LOCKOUT) == n
    ensures FailedTries(seq(n, _ => Op.SignIn(ip, false, start)), None, start - LOCKOUT) == n
  {
    var ops := seq(n, _ => Op.SignIn(ip, false, start));
    if n > 0 {
      assert ops[..n - 1] == seq(n - 1, _ => Op.SignIn(ip, false, start));
      Wrongs(start, ip, n - 1);
    }
  }
}
