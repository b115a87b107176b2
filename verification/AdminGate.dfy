/** The admin portal's lockout: failures counted in a sliding window, per address and overall. Times are in microseconds. */
module AdminGate {
  import opened Prelude

  type Address = string

  const SECOND: nat := 1_000_000
  const LOCKOUT: nat := 15 * 60 * SECOND
  const KEPT: nat := 90 * 24 * 60 * 60 * SECOND
  const MAX_PER_ADDRESS: nat := 5
  const MAX_TOTAL: nat := 30

  datatype Attempt = Attempt(at: int, ip: Address, ok: bool)

  /** A failure from this address, or from anywhere for None. */
  predicate Failed(a: Attempt, ip: Option<Address>) { !a.ok && (ip.Some? ==> a.ip == ip.value) }

  /** When the failures from an address, or from anywhere, happened, in table order. */
  function FailureTimes(attempts: seq<Attempt>, ip: Option<Address>): seq<int> {
    if attempts == [] then [] else
      var last := attempts[|attempts| - 1];
      FailureTimes(attempts[..|attempts| - 1], ip) + if Failed(last, ip) then [last.at] else []
  }

  function Since(times: seq<int>, from: int): seq<int> {
    if times == [] then [] else
      Since(times[..|times| - 1], from) + if times[|times| - 1] >= from then [times[|times| - 1]] else []
  }

  predicate Descending(times: seq<int>) { forall i, j | 0 <= i < j < |times| :: times[i] >= times[j] }

  function InsertDescending(times: seq<int>, t: int): seq<int> {
    if times == [] || times[0] <= t then [t] + times else [times[0]] + InsertDescending(times[1..], t)
  }

  function SortDescending(times: seq<int>): seq<int> {
    if times == [] then [] else InsertDescending(SortDescending(times[..|times| - 1]), times[|times| - 1])
  }

  /** The newest failures in the window that ends now, newest first, at most limit of them. */
  function Recent(attempts: seq<Attempt>, ip: Option<Address>, now: int, limit: nat): seq<int> {
    var newestFirst := SortDescending(Since(FailureTimes(attempts, ip), now - LOCKOUT));
    if |newestFirst| > limit then newestFirst[..limit] else newestFirst
  }

  /** Seconds to wait for one limit: until the oldest of the newest `limit` failures leaves the window. */
  function WaitFor(attempts: seq<Attempt>, ip: Option<Address>, now: int, limit: nat): int
    requires limit > 0
  {
    var recent := Recent(attempts, ip, now, limit);
    if |recent| < limit then 0 else
      var seconds := (recent[|recent| - 1] + LOCKOUT - now) / SECOND + 1;
      if seconds > 1 then seconds else 1
  }

  function RetryAfter(attempts: seq<Attempt>, ip: Address, now: int): int {
    var wait := WaitFor(attempts, Some(ip), now, MAX_PER_ADDRESS);
    if wait != 0 then wait else WaitFor(attempts, None, now, MAX_TOTAL)
  }

  function Prune(attempts: seq<Attempt>, now: int): seq<Attempt> {
    if attempts == [] then [] else
      var last := attempts[|attempts| - 1];
      Prune(attempts[..|attempts| - 1], now) + if last.at >= now - KEPT then [last] else []
  }

  // ----- counting -----

  /** How many of these times are not before `from`. */
  function CountSince(times: seq<int>, from: int): nat {
    if times == [] then 0 else CountSince(times[..|times| - 1], from) + if times[|times| - 1] >= from then 1 else 0
  }

  function CountIn(times: seq<int>, from: int, to: int): nat {
    if times == [] then 0
    else CountIn(times[..|times| - 1], from, to) + if from <= times[|times| - 1] <= to then 1 else 0
  }

  lemma {:induction false} CountAppend(a: seq<int>, b: seq<int>, from: int)
    ensures CountSince(a + b, from) == CountSince(a, from) + CountSince(b, from)
  {
    if b == [] {
      assert a + b == a;
    } else {
      assert (a + b)[..|a + b| - 1] == a + b[..|b| - 1];
      CountAppend(a, b[..|b| - 1], from);
    }
  }

  lemma {:induction false} CountMonotone(times: seq<int>, from: int, later: int)
    requires from <= later
    ensures CountSince(times, later) <= CountSince(times, from)
    ensures forall t | t in times && from <= t < later :: CountSince(times, later) < CountSince(times, from)
  {
    if times != [] {
      CountMonotone(times[..|times| - 1], from, later);
      assert times == times[..|times| - 1] + [times[|times| - 1]];
    }
  }

  lemma {:induction false} CountSinceOfSince(times: seq<int>, from: int, later: int)
    requires from <= later
    ensures CountSince(Since(times, from), later) == CountSince(times, later)
    ensures |Since(times, from)| == CountSince(times, from)
    ensures forall t | t in Since(times, from) :: t in times && t >= from
  {
    if times != [] {
      var front, last := times[..|times| - 1], times[|times| - 1];
      CountSinceOfSince(front, from, later);
      assert times == front + [last];
      if last >= from {
        CountAppend(Since(front, from), [last], later);
      } else {
        assert Since(times, from) == Since(front, from);
      }
    }
  }

  lemma {:induction false} CountInsert(times: seq<int>, t: int, from: int)
    ensures CountSince(InsertDescending(times, t), from) == CountSince(times, from) + if t >= from then 1 else 0
    ensures |InsertDescending(times, t)| == |times| + 1
  {
    CountAppend([t], times, from);
    if times != [] && times[0] > t {
      CountInsert(times[1..], t, from);
      CountAppend([times[0]], InsertDescending(times[1..], t), from);
      CountAppend([times[0]], times[1..], from);
      assert times == [times[0]] + times[1..];
    }
  }

  lemma {:induction false} InsertKeepsOrder(times: seq<int>, t: int)
    requires Descending(times)
    ensures Descending(InsertDescending(times, t))
    ensures forall x :: x in InsertDescending(times, t) <==> x in times || x == t
  {
    if times != [] && times[0] > t {
      InsertKeepsOrder(times[1..], t);
      var rest := InsertDescending(times[1..], t);
      assert times == [times[0]] + times[1..];
      forall x | x in rest ensures x <= times[0] {
        if x in times[1..] {
          var i :| 0 <= i < |times[1..]| && times[1..][i] == x;
          assert times[i + 1] == x;
        }
      }
      assert forall i | 0 <= i < |rest| :: rest[i] in rest;
    }
  }

  lemma {:induction false} SortKeepsCounts(times: seq<int>, from: int)
    ensures Descending(SortDescending(times)) && |SortDescending(times)| == |times|
    ensures CountSince(SortDescending(times), from) == CountSince(times, from)
    ensures forall x :: x in SortDescending(times) <==> x in times
  {
    if times != [] {
      var front, last := times[..|times| - 1], times[|times| - 1];
      SortKeepsCounts(front, from);
      CountInsert(SortDescending(front), last, from);
      InsertKeepsOrder(SortDescending(front), last);
      assert times == front + [last];
    }
  }

  /** Newest first, the first k are the ones not before the k-th. */
  lemma {:induction false} CountDescending(times: seq<int>, k: nat, from: int)
    requires Descending(times) && 0 < k <= |times|
    ensures CountSince(times, from) >= k <==> times[k - 1] >= from
  {
    var front, last := times[..|times| - 1], times[|times| - 1];
    if k < |times| {
      CountDescending(front, k, from);
    } else {
      CountBound(front, from);
      if last >= from { AllCount(front, from); }
    }
  }

  lemma {:induction false} CountBound(times: seq<int>, from: int)
    ensures CountSince(times, from) <= |times|
  {
    if times != [] { CountBound(times[..|times| - 1], from); }
  }

  lemma {:induction false} AllCount(times: seq<int>, from: int)
    requires forall t | t in times :: t >= from
    ensures CountSince(times, from) == |times|
  {
    if times != [] {
      var front, last := times[..|times| - 1], times[|times| - 1];
      assert times == front + [last];
      assert forall t | t in front :: t in times;
      assert last in times;
      AllCount(front, from);
    }
  }

  // ----- what a wait means -----

  /** One limit is reached at `now` when its window holds that many failures. */
  predicate Reached(attempts: seq<Attempt>, ip: Option<Address>, now: int, limit: nat) {
    CountSince(FailureTimes(attempts, ip), now - LOCKOUT) >= limit
  }

  /**
   A wait is positive exactly when the limit is reached; the limit then stays reached up to some
   moment, and is clear after it, that is less than the wait away and at least the wait less one second.
   */
  lemma WaitMeans(attempts: seq<Attempt>, ip: Option<Address>, now: int, limit: nat) returns (oldest: int)
    requires limit > 0
    ensures var wait := WaitFor(attempts, ip, now, limit);
      && (wait == 0 <==> !Reached(attempts, ip, now, limit))
      && (wait != 0 ==>
            && oldest in FailureTimes(attempts, ip) && oldest >= now - LOCKOUT
            && (wait - 1) * SECOND <= oldest + LOCKOUT - now < wait * SECOND
            && forall t | t >= now :: Reached(attempts, ip, t, limit) <==> t <= oldest + LOCKOUT)
  {
    var times := FailureTimes(attempts, ip);
    var window := Since(times, now - LOCKOUT);
    var sorted := SortDescending(window);
    CountSinceOfSince(times, now - LOCKOUT, now - LOCKOUT);
    SortKeepsCounts(window, now - LOCKOUT);
    oldest := 0;
    if |sorted| >= limit {
      oldest := sorted[limit - 1];
      assert oldest in window;
      forall t | t >= now ensures Reached(attempts, ip, t, limit) <==> t <= oldest + LOCKOUT {
        CountSinceOfSince(times, now - LOCKOUT, t - LOCKOUT);
        SortKeepsCounts(window, t - LOCKOUT);
        CountDescending(sorted, limit, t - LOCKOUT);
      }
    }
  }

  // ----- runs -----

  /** The failures of one address, or all, in the closed window that starts at `from`. */
  function InWindow(log: seq<Attempt>, ip: Option<Address>, from: int): nat {
    CountIn(FailureTimes(log, ip), from, from + LOCKOUT)
  }

  datatype Op = SignIn(ip: Address, right: bool, now: int) | PruneOp(now: int)

  function Limit(scope: Option<Address>): nat { if scope.Some? then MAX_PER_ADDRESS else MAX_TOTAL }

  /** The table, every attempt ever recorded, how many of those have been pruned, and the time so far. */
  datatype State = State(attempts: seq<Attempt>, log: seq<Attempt>, gone: nat, clock: int)

  function Start(at: int): State { State([], [], 0, at) }

  function Recorded(s: State, a: Attempt): State { State(s.attempts + [a], s.log + [a], s.gone, a.at) }

  function PrunedCount(attempts: seq<Attempt>, now: int): (n: nat)
    ensures n <= |attempts|
  {
    if attempts == [] then 0 else
      var n := PrunedCount(attempts[..|attempts| - 1], now);
      if attempts[|attempts| - 1].at >= now - KEPT then n else n + 1
  }

  function Next(s: State, op: Op): State {
    match op
    case SignIn(ip, right, now) =>
      if RetryAfter(s.attempts, ip, now) != 0 then s.(clock := now)
      else Recorded(s, Attempt(now, ip, right))
    case PruneOp(now) => s.(attempts := Prune(s.attempts, now), gone := s.gone + PrunedCount(s.attempts, now), clock := now)
  }

  ghost predicate InOrder(rows: seq<Attempt>) { forall i, j | 0 <= i < j < |rows| :: rows[i].at <= rows[j].at }

  ghost predicate AllBefore(rows: seq<Attempt>, time: int) { forall a | a in rows :: a.at < time }

  ghost predicate TimesOrdered(s: State) { InOrder(s.log) && forall a | a in s.log :: a.at <= s.clock }

  /** The table is what is left of the log after its oldest part, all of it past keeping. */
  ghost predicate TableIsTail(s: State) {
    s.gone <= |s.log| && s.attempts == s.log[s.gone..] && AllBefore(s.log[..s.gone], s.clock - KEPT)
  }

  ghost predicate WindowsHold(log: seq<Attempt>) {
    forall scope, from :: InWindow(log, scope, from) <= Limit(scope)
  }

  ghost predicate Inv(s: State) { TimesOrdered(s) && TableIsTail(s) && WindowsHold(s.log) }

  lemma {:induction false} FailureTimesAppend(a: seq<Attempt>, b: seq<Attempt>, ip: Option<Address>)
    ensures FailureTimes(a + b, ip) == FailureTimes(a, ip) + FailureTimes(b, ip)
  {
    if b == [] {
      assert a + b == a;
    } else {
      assert (a + b)[..|a + b| - 1] == a + b[..|b| - 1];
      FailureTimesAppend(a, b[..|b| - 1], ip);
    }
  }

  lemma {:induction false} CountSplits(times: seq<int>, from: int, to: int)
    ensures CountIn(times, from, to) <= CountSince(times, from)
    ensures (forall t | t in times :: t <= to) ==> CountIn(times, from, to) == CountSince(times, from)
    ensures (forall t | t in times :: t < from) ==> CountSince(times, from) == 0
  {
    if times != [] {
      var front, last := times[..|times| - 1], times[|times| - 1];
      assert times == front + [last];
      assert forall t | t in front :: t in times;
      assert last in times;
      CountSplits(front, from, to);
    }
  }

  lemma {:induction false} FailuresAreThere(log: seq<Attempt>, ip: Option<Address>)
    ensures forall t | t in FailureTimes(log, ip) :: exists a :: a in log && a.at == t
  {
    if log != [] {
      var front, last := log[..|log| - 1], log[|log| - 1];
      FailuresAreThere(front, ip);
      assert log == front + [last];
      assert forall a | a in front :: a in log;
      assert last in log;
    }
  }

  lemma FailuresUpTo(s: State, ip: Option<Address>)
    requires TimesOrdered(s)
    ensures forall t | t in FailureTimes(s.log, ip) :: t <= s.clock
  {
    FailuresAreThere(s.log, ip);
  }

  lemma NoneLeftSince(rows: seq<Attempt>, ip: Option<Address>, from: int)
    requires AllBefore(rows, from)
    ensures CountSince(FailureTimes(rows, ip), from) == 0
  {
    FailuresAreThere(rows, ip);
    CountSplits(FailureTimes(rows, ip), from, from);
  }

  /** Whatever has been pruned is too old to be in any window that matters. */
  lemma TailCounts(s: State, ip: Option<Address>, from: int)
    requires TableIsTail(s) && from >= s.clock - KEPT
    ensures CountSince(FailureTimes(s.attempts, ip), from) == CountSince(FailureTimes(s.log, ip), from)
  {
    hide FailureTimes, CountSince;
    var pruned := s.log[..s.gone];
    assert s.log == pruned + s.attempts;
    FailureTimesAppend(pruned, s.attempts, ip);
    CountAppend(FailureTimes(pruned, ip), FailureTimes(s.attempts, ip), from);
    assert AllBefore(pruned, from);
    NoneLeftSince(pruned, ip, from);
  }

  lemma AppendFailure(log: seq<Attempt>, a: Attempt, ip: Option<Address>, from: int)
    ensures InWindow(log + [a], ip, from) == InWindow(log, ip, from) + if Failed(a, ip) && from <= a.at <= from + LOCKOUT then 1 else 0
  {
    assert (log + [a])[..|log|] == log;
    var times := FailureTimes(log, ip);
    assert (times + [a.at])[..|times|] == times;
    assert times + [] == times;
  }

  /** A failure recorded below a limit keeps every window within it. */
  lemma RecordKeepsWindow(s: State, a: Attempt, ip: Option<Address>, limit: nat, from: int)
    requires TimesOrdered(s) && TableIsTail(s) && a.at >= s.clock && InWindow(s.log, ip, from) <= limit
    requires Failed(a, ip) ==> !Reached(s.attempts, ip, a.at, limit)
    ensures InWindow(s.log + [a], ip, from) <= limit
  {
    hide FailureTimes, TimesOrdered, TableIsTail, CountSince, CountIn;
    AppendFailure(s.log, a, ip, from);
    if Failed(a, ip) && from <= a.at <= from + LOCKOUT {
      var times := FailureTimes(s.log, ip);
      FailuresUpTo(s, ip);
      CountSplits(times, from, from + LOCKOUT);
      CountMonotone(times, a.at - LOCKOUT, from);
      assert a.at - LOCKOUT >= s.clock - KEPT;
      TailCounts(s, ip, a.at - LOCKOUT);
    }
  }

  /** In an ordered table, pruning takes a prefix, and all of it is past keeping. */
  lemma {:induction false} PruneIsTail(attempts: seq<Attempt>, now: int)
    requires InOrder(attempts)
    ensures Prune(attempts, now) == attempts[PrunedCount(attempts, now)..]
    ensures AllBefore(attempts[..PrunedCount(attempts, now)], now - KEPT)
  {
    if attempts != [] {
      hide Prune, PrunedCount, InOrder;
      var front, last := attempts[..|attempts| - 1], attempts[|attempts| - 1];
      assert attempts == front + [last];
      OrderedFront(front, last);
      PruneLast(front, last, now);
      if last.at < now - KEPT {
        AllPruned(front, now);
        assert attempts[|attempts|..] == [];
        assert attempts[..|attempts|] == attempts;
      } else {
        PruneIsTail(front, now);
        var n := PrunedCount(front, now);
        assert front[n..] + [last] == attempts[n..];
        assert front[..n] == attempts[..n];
      }
    }
  }

  lemma PruneLast(front: seq<Attempt>, last: Attempt, now: int)
    ensures Prune(front + [last], now) == Prune(front, now) + if last.at >= now - KEPT then [last] else []
    ensures PrunedCount(front + [last], now) == PrunedCount(front, now) + if last.at >= now - KEPT then 0 else 1
  {
    assert (front + [last])[..|front|] == front;
  }

  lemma OrderedFront(front: seq<Attempt>, last: Attempt)
    requires InOrder(front + [last])
    ensures InOrder(front) && forall a | a in front :: a.at <= last.at
  {
    var rows := front + [last];
    assert forall i | 0 <= i < |front| :: rows[i] == front[i];
    assert rows[|front|] == last;
  }

  lemma {:induction false} AllPruned(attempts: seq<Attempt>, now: int)
    requires AllBefore(attempts, now - KEPT)
    ensures Prune(attempts, now) == [] && PrunedCount(attempts, now) == |attempts|
  {
    if attempts != [] {
      assert attempts == attempts[..|attempts| - 1] + [attempts[|attempts| - 1]];
      AllPruned(attempts[..|attempts| - 1], now);
    }
  }

  lemma AppendInOrder(rows: seq<Attempt>, a: Attempt)
    requires InOrder(rows) && forall b | b in rows :: b.at <= a.at
    ensures InOrder(rows + [a]) && forall b | b in rows + [a] :: b.at <= a.at
  {
    assert forall i | 0 <= i < |rows| :: rows[i] in rows;
  }

  lemma AppendIsTail(log: seq<Attempt>, gone: nat, a: Attempt)
    requires gone <= |log|
    ensures log[gone..] + [a] == (log + [a])[gone..] && (log + [a])[..gone] == log[..gone]
  {
  }

  lemma AppendKeepsTail(s: State, a: Attempt)
    requires TimesOrdered(s) && TableIsTail(s) && a.at >= s.clock
    ensures TimesOrdered(Recorded(s, a)) && TableIsTail(Recorded(s, a))
  {
    hide InOrder;
    AppendInOrder(s.log, a);
    AppendIsTail(s.log, s.gone, a);
  }

  lemma AppendKeepsWindows(s: State, a: Attempt)
    requires Inv(s) && a.at >= s.clock && RetryAfter(s.attempts, a.ip, a.at) == 0
    ensures WindowsHold(s.log + [a])
  {
    hide FailureTimes, RetryAfter, InWindow, TimesOrdered, TableIsTail, Reached;
    NoWaitNoLimit(s.attempts, a.ip, a.at);
    var after := s.log + [a];
    forall scope, from ensures InWindow(after, scope, from) <= Limit(scope) {
      assert InWindow(s.log, scope, from) <= Limit(scope);
      RecordKeepsWindow(s, a, scope, Limit(scope), from);
    }
  }

  lemma TimeKeeps(s: State, now: int)
    requires TimesOrdered(s) && TableIsTail(s) && now >= s.clock
    ensures TimesOrdered(s.(clock := now)) && TableIsTail(s.(clock := now))
  {
    hide InOrder;
  }

  lemma SignInKeeps(s: State, op: Op)
    requires Inv(s) && op.SignIn? && op.now >= s.clock
    ensures Inv(Next(s, op))
  {
    hide RetryAfter, WindowsHold, TimesOrdered, TableIsTail;
    if RetryAfter(s.attempts, op.ip, op.now) == 0 {
      var a := Attempt(op.now, op.ip, op.right);
      AppendKeepsTail(s, a);
      AppendKeepsWindows(s, a);
    } else {
      TimeKeeps(s, op.now);
    }
  }

  lemma NoWaitNoLimit(attempts: seq<Attempt>, ip: Address, now: int)
    ensures RetryAfter(attempts, ip, now) == 0 <==>
      !Reached(attempts, Some(ip), now, MAX_PER_ADDRESS) && !Reached(attempts, None, now, MAX_TOTAL)
  {
    var _ := WaitMeans(attempts, Some(ip), now, MAX_PER_ADDRESS);
    var _ := WaitMeans(attempts, None, now, MAX_TOTAL);
  }

  lemma TailInOrder(log: seq<Attempt>, gone: nat)
    requires InOrder(log) && gone <= |log|
    ensures InOrder(log[gone..])
  {
    var tail := log[gone..];
    assert forall i | 0 <= i < |tail| :: tail[i] == log[gone + i];
  }

  /** Two prefixes pruned one after the other. */
  lemma MoreGone(log: seq<Attempt>, gone: nat, more: nat, earlier: int, now: int)
    requires gone <= |log| && more <= |log| - gone && earlier <= now
    requires AllBefore(log[..gone], earlier) && AllBefore(log[gone..][..more], now)
    ensures log[gone..][more..] == log[gone + more..] && AllBefore(log[..gone + more], now)
  {
    assert log[..gone + more] == log[..gone] + log[gone..][..more];
  }

  lemma PruneKeeps(s: State, now: int)
    requires Inv(s) && now >= s.clock
    ensures Inv(Next(s, PruneOp(now)))
  {
    hide WindowsHold, InOrder, AllBefore, Prune, PrunedCount;
    TailInOrder(s.log, s.gone);
    PruneIsTail(s.attempts, now);
    MoreGone(s.log, s.gone, PrunedCount(s.attempts, now), s.clock - KEPT, now - KEPT);
  }

  predicate Monotone(s: State, ops: seq<Op>) {
    ops == [] || (Monotone(s, ops[..|ops| - 1]) && ops[|ops| - 1].now >= After(s, ops[..|ops| - 1]).clock)
  }

  function After(s: State, ops: seq<Op>): State {
    if ops == [] then s else Next(After(s, ops[..|ops| - 1]), ops[|ops| - 1])
  }

  /** From an empty table, under a clock that does not go back. */
  lemma {:induction false} Reachable(start: int, ops: seq<Op>)
    requires Monotone(Start(start), ops)
    ensures Inv(After(Start(start), ops))
  {
    if ops == [] {
      StartHolds(start);
    } else {
      hide Next, Inv;
      var before, op := ops[..|ops| - 1], ops[|ops| - 1];
      Reachable(start, before);
      if op.SignIn? { SignInKeeps(After(Start(start), before), op); } else { PruneKeeps(After(Start(start), before), op.now); }
    }
  }

  lemma StartHolds(start: int)
    ensures Inv(Start(start))
  {
    forall scope, from ensures InWindow([], scope, from) <= Limit(scope) {
      assert FailureTimes([], scope) == [];
    }
  }

  /** No closed 15-minute window ever holds more than 5 failures from one address, or 30 in all. */
  lemma {:induction false} WindowsAreBounded(start: int, ops: seq<Op>, ip: Address, from: int)
    requires Monotone(Start(start), ops)
    ensures var log := After(Start(start), ops).log;
      InWindow(log, Some(ip), from) <= MAX_PER_ADDRESS && InWindow(log, None, from) <= MAX_TOTAL
  {
    hide After, Monotone, TimesOrdered, TableIsTail, InWindow;
    Reachable(start, ops);
    var log := After(Start(start), ops).log;
    assert InWindow(log, Some(ip), from) <= Limit(Some(ip)) && InWindow(log, None, from) <= Limit(None);
  }

  /**
   The wait is the truth about both limits together. In every reachable state, if retry_after answers w > 0
   and nothing is recorded meanwhile, another try is refused up to some moment, and allowed at any time after
   it; that moment is at least w - 1 and less than w seconds away.
   */
  lemma {:induction false} RetryAfterIsExact(start: int, ops: seq<Op>, ip: Address, now: int) returns (clear: int)
    requires Monotone(Start(start), ops) && now >= After(Start(start), ops).clock
    requires RetryAfter(After(Start(start), ops).attempts, ip, now) != 0
    ensures var attempts, w := After(Start(start), ops).attempts, RetryAfter(After(Start(start), ops).attempts, ip, now);
      && (w - 1) * SECOND <= clear - now < w * SECOND
      && forall t | t >= now :: RetryAfter(attempts, ip, t) == 0 <==> t > clear
  {
    hide After, Monotone, RetryAfter, WaitFor, FailureTimes;
    var s := After(Start(start), ops);
    Reachable(start, ops);
    clear := ExactWait(s, ip, now);
  }

  lemma ExactWait(s: State, ip: Address, now: int) returns (clear: int)
    requires Inv(s) && now >= s.clock && RetryAfter(s.attempts, ip, now) != 0
    ensures var w := RetryAfter(s.attempts, ip, now);
      && (w - 1) * SECOND <= clear - now < w * SECOND
      && forall t | t >= now :: RetryAfter(s.attempts, ip, t) == 0 <==> t > clear
  {
    hide WaitFor, FailureTimes, TimesOrdered, TableIsTail, WindowsHold;
    var address := WaitMeans(s.attempts, Some(ip), now, MAX_PER_ADDRESS);
    var total := WaitMeans(s.attempts, None, now, MAX_TOTAL);
    clear := LOCKOUT + if Reached(s.attempts, Some(ip), now, MAX_PER_ADDRESS) then address else total;
    forall t | t >= now ensures RetryAfter(s.attempts, ip, t) == 0 <==> t > clear {
      NoWaitNoLimit(s.attempts, ip, t);
      if Reached(s.attempts, Some(ip), now, MAX_PER_ADDRESS) {
        if t > clear { TotalClearsToo(s, ip, now, address, t); }
      } else {
        CountMonotone(FailureTimes(s.attempts, Some(ip)), now - LOCKOUT, t - LOCKOUT);
      }
    }
  }

  /** When an address's oldest failure leaves the window, so does one of at most 30: the overall limit is clear too. */
  lemma TotalClearsToo(s: State, ip: Address, now: int, oldest: int, t: int)
    requires Inv(s) && now >= s.clock && t > oldest + LOCKOUT
    requires oldest in FailureTimes(s.attempts, Some(ip)) && oldest >= now - LOCKOUT
    ensures !Reached(s.attempts, None, t, MAX_TOTAL)
  {
    hide TableIsTail;
    var times := FailureTimes(s.attempts, None);
    AddressIsPartOfTotal(s.attempts, ip, oldest);
    CountMonotone(times, now - LOCKOUT, t - LOCKOUT);
    TailCounts(s, None, now - LOCKOUT);
    var all := FailureTimes(s.log, None);
    FailuresUpTo(s, None);
    CountSplits(all, now - LOCKOUT, now);
    assert InWindow(s.log, None, now - LOCKOUT) <= Limit(None);
  }

  lemma {:induction false} AddressIsPartOfTotal(attempts: seq<Attempt>, ip: Address, t: int)
    requires t in FailureTimes(attempts, Some(ip))
    ensures t in FailureTimes(attempts, None)
  {
    var front := attempts[..|attempts| - 1];
    if t in FailureTimes(front, Some(ip)) {
      AddressIsPartOfTotal(front, ip, t);
    }
  }
}
