/** Heartbeat accounting over whole runs: how credit relates to the time that really passed. */
module ActivityRuns {
  import opened Prelude
  import opened Sums
  import opened Activity

  datatype Op = Heartbeat(beat: Beat, now: int) | CleanUp(now: int)

  /** A person's or visitor's heartbeats on one client so far, those that were not ignored. */
  datatype Trace = Trace(first: int, last: int, left: bool, credited: nat)

  datatype State = State(ledger: Ledger, traces: map<Who, Trace>, clock: int)

  /** Who an operation is an applied heartbeat of. */
  function Applied(l: Ledger, op: Op): Option<Who> {
    if op.CleanUp? || SubjectOf(op.beat).None? then None else
      var who := Who(SubjectOf(op.beat).value, op.beat.client);
      if Ignored(l, who, op.beat.event, op.now) then None else Some(who)
  }

  function NextLedger(l: Ledger, op: Op): Ledger {
    match op
    case Heartbeat(beat, now) => Record(l, beat, now)
    case CleanUp(now) => Prune(l, now)
  }

  function Traced(s: State, op: Op): map<Who, Trace> {
    match Applied(s.ledger, op)
    case None => s.traces
    case Some(who) =>
      var gain := Gain(s.ledger, who, op.beat.event, op.now);
      var left := op.beat.event == Leave;
      s.traces[who :=
        if who in s.traces then Trace(s.traces[who].first, op.now, left, s.traces[who].credited + gain)
        else Trace(op.now, op.now, left, gain)]
  }

  function Next(s: State, op: Op): State { State(NextLedger(s.ledger, op), Traced(s, op), op.now) }

  function After(s: State, ops: seq<Op>): State {
    if ops == [] then s else Next(After(s, ops[..|ops| - 1]), ops[|ops| - 1])
  }

  /** The clock does not go back. */
  predicate Monotone(s: State, ops: seq<Op>) {
    ops == [] || (Monotone(s, ops[..|ops| - 1]) && ops[|ops| - 1].now >= After(s, ops[..|ops| - 1]).clock)
  }

  function Start(t: int): State { State(EMPTY, map[], t) }

  // ----- the two ledgers agree, whatever the clock does -----

  lemma {:induction false} LedgersAgree(t: int, ops: seq<Op>)
    ensures Agree(After(Start(t), ops).ledger)
  {
    EmptyAgrees();
    if ops != [] {
      hide Agree;
      LedgersAgree(t, ops[..|ops| - 1]);
      NextAgrees(After(Start(t), ops[..|ops| - 1]).ledger, ops[|ops| - 1]);
    }
  }

  lemma NextAgrees(l: Ledger, op: Op)
    requires Agree(l)
    ensures Agree(NextLedger(l, op))
  {
    hide Agree, Apply, Prune;
    match op
    case Heartbeat(beat, now) =>
      if SubjectOf(beat).Some? {
        var applied := Apply(l, SubjectOf(beat).value, beat, now);
        ApplyAgrees(l, SubjectOf(beat).value, beat, now);
        CountOnlyAgrees(applied, 0);
        CountOnlyAgrees(applied, applied.sincePrune + 1);
        PruneAgrees(applied.(sincePrune := 0), now);
      }
    case CleanUp(now) => PruneAgrees(l, now);
  }

  // ----- credit and the clock -----

  /** One person's time on one client over every day kept. */
  ghost function KeptSeconds(l: Ledger, who: Who): nat { GroupTotal(DailySeconds(l.daily), WhoOf, who) }

  ghost predicate TraceSound(s: State, who: Who)
    requires who in s.traces
  {
    var trace := s.traces[who];
    && trace.first <= trace.last <= s.clock
    && trace.credited * SECOND <= trace.last - trace.first
    && KeptSeconds(s.ledger, who) <= trace.credited
    && (DayOf(trace.first) >= DayOf(s.clock - RETAIN_DAYS * DAY) ==> KeptSeconds(s.ledger, who) == trace.credited)
  }

  /** Presence is the last of the trace, and is there for 30 days. */
  ghost predicate PresenceSound(s: State, who: Who) {
    && (who in s.ledger.presence ==>
          && who in s.traces
          && s.ledger.presence[who].lastSeen == s.traces[who].last && s.ledger.presence[who].left == s.traces[who].left)
    && (who in s.traces && s.traces[who].last >= s.clock - PRESENCE_KEPT ==> who in s.ledger.presence)
  }

  /** The most a day's row can hold once the last heartbeat was at `last`. */
  function DayBound(day: int, last: int): int {
    var end := (day + 1) * DAY - 1;
    (if last < end then last else end) - day * DAY + MAX_CREDIT * SECOND
  }

  ghost predicate DaySound(s: State, k: DayKey)
    requires k in s.ledger.daily
  {
    && WhoOf(k) in s.traces
    && DayOf(s.traces[WhoOf(k)].first) <= k.day <= DayOf(s.traces[WhoOf(k)].last)
    && s.ledger.daily[k].seconds * SECOND <= DayBound(k.day, s.traces[WhoOf(k)].last)
  }

  ghost predicate Inv(s: State) {
    && (forall who | who in s.traces :: TraceSound(s, who))
    && (forall who :: PresenceSound(s, who))
    && (forall k | k in s.ledger.daily :: DaySound(s, k))
  }

  /** No heartbeat credits more than the time since the one before it. */
  lemma GainBound(s: State, who: Who, event: Event, now: int)
    requires PresenceSound(s, who)
    ensures var gain := Gain(s.ledger, who, event, now);
      && gain <= MAX_CREDIT
      && (gain > 0 ==> who in s.traces && gain * SECOND <= now - s.traces[who].last)
  {
  }

  lemma DayMonotone(t: int, u: int)
    requires t <= u
    ensures DayOf(t) <= DayOf(u)
  {
  }

  lemma NothingKept(s: State, who: Who)
    requires forall k | k in s.ledger.daily :: WhoOf(k) in s.traces
    requires who !in s.traces
    ensures KeptSeconds(s.ledger, who) == 0
  {
    assert Group(DailySeconds(s.ledger.daily), WhoOf, who) == map[];
  }

  // ----- each step keeps the invariant -----

  /** What an applied heartbeat does, before any clean-up. */
  function Beaten(s: State, subject: Subject, beat: Beat, now: int): State {
    State(Apply(s.ledger, subject, beat, now), Traced(s, Heartbeat(beat, now)), now)
  }

  lemma BeatKeepsPresence(s: State, subject: Subject, beat: Beat, now: int, w: Who)
    requires PresenceSound(s, w) && SubjectOf(beat) == Some(subject) && now >= s.clock
    ensures PresenceSound(Beaten(s, subject, beat, now), w)
  {
    hide Gain, CreditDaily, CreditPage, CountView;
  }

  lemma BeatKeepsTrace(s: State, subject: Subject, beat: Beat, now: int, w: Who)
    requires Inv(s) && SubjectOf(beat) == Some(subject) && now >= s.clock
    requires w in Beaten(s, subject, beat, now).traces
    ensures TraceSound(Beaten(s, subject, beat, now), w)
  {
    hide Gain, CreditDaily, CreditPage, CountView, GroupTotal, DayOf, Seen, Continues;
    var who := Who(subject, beat.client);
    var gain := Gain(s.ledger, who, beat.event, now);
    DayMonotone(s.clock - RETAIN_DAYS * DAY, now - RETAIN_DAYS * DAY);
    assert PresenceSound(s, who);
    if w !in s.traces {
      assert forall k | k in s.ledger.daily :: DaySound(s, k);
      NothingKept(s, w);
    }
    if !Ignored(s.ledger, who, beat.event, now) {
      GainBound(s, who, beat.event, now);
      CreditDailyTotal(s.ledger.daily, DayKey(subject, DayOf(now), beat.client), beat.user, gain, WhoOf, w);
    }
  }

  /** The bound of a day never falls, and today's grows by at least what is credited to it. */
  lemma BoundGrows(day: int, last: int, now: int)
    requires last <= now && day <= DayOf(now)
    ensures DayBound(day, last) <= DayBound(day, now)
    ensures day == DayOf(last) == DayOf(now) ==> DayBound(day, now) == DayBound(day, last) + now - last
    ensures day == DayOf(now) ==> DayBound(day, now) >= MAX_CREDIT * SECOND
  {
  }

  lemma BeatKeepsDay(s: State, subject: Subject, beat: Beat, now: int, k: DayKey)
    requires Inv(s) && SubjectOf(beat) == Some(subject) && now >= s.clock
    requires k in Beaten(s, subject, beat, now).ledger.daily
    ensures DaySound(Beaten(s, subject, beat, now), k)
  {
    hide Gain, CreditPage, CountView, KeptSeconds, Seen, Continues, PresenceSound, DayBound, DayOf;
    var who := Who(subject, beat.client);
    assert PresenceSound(s, who);
    GainBound(s, who, beat.event, now);
    var traced := Beaten(s, subject, beat, now).traces;
    if who in s.traces {
      assert TraceSound(s, who);
      DayMonotone(s.traces[who].last, now);
      DayMonotone(s.traces[who].first, now);
      BoundGrows(DayOf(now), s.traces[who].last, now);
    }
    if k in s.ledger.daily {
      assert DaySound(s, k) && TraceSound(s, WhoOf(k));
      if WhoOf(k) == who { BoundGrows(k.day, s.traces[who].last, now); }
    }
  }

  lemma BeatKeeps(s: State, subject: Subject, beat: Beat, now: int)
    requires Inv(s) && SubjectOf(beat) == Some(subject) && now >= s.clock
    ensures Inv(Beaten(s, subject, beat, now))
  {
    hide PresenceSound, TraceSound, DaySound, Beaten;
    var after := Beaten(s, subject, beat, now);
    forall w ensures PresenceSound(after, w) { BeatKeepsPresence(s, subject, beat, now, w); }
    forall w | w in after.traces ensures TraceSound(after, w) { BeatKeepsTrace(s, subject, beat, now, w); }
    forall k | k in after.ledger.daily ensures DaySound(after, k) { BeatKeepsDay(s, subject, beat, now, k); }
  }

  lemma PruneKeepsTrace(s: State, now: int, w: Who)
    requires Inv(s) && now >= s.clock && w in s.traces
    ensures TraceSound(State(Prune(s.ledger, now), s.traces, now), w)
  {
    hide DayOf, KeptSeconds;
    DayMonotone(s.clock - RETAIN_DAYS * DAY, now - RETAIN_DAYS * DAY);
    assert forall k | k in s.ledger.daily && WhoOf(k) == w :: DaySound(s, k);
    PruneKeepsSeconds(s.ledger, now, w);
  }

  lemma PruneKeepsSeconds(l: Ledger, now: int, w: Who)
    ensures KeptSeconds(Prune(l, now), w) <= KeptSeconds(l, w)
    ensures (forall k | k in l.daily && WhoOf(k) == w :: k.day >= DayOf(now - RETAIN_DAYS * DAY)) ==>
      KeptSeconds(Prune(l, now), w) == KeptSeconds(l, w)
  {
    hide DayOf, Total;
    var mine := Group(DailySeconds(l.daily), WhoOf, w);
    var kept := Group(DailySeconds(Prune(l, now).daily), WhoOf, w);
    assert forall k | k in kept :: k in mine && mine[k] == kept[k];
    TotalSubset(kept, mine);
    if forall k | k in l.daily && WhoOf(k) == w :: k.day >= DayOf(now - RETAIN_DAYS * DAY) {
      assert kept == mine;
    }
  }

  lemma PruneKeeps(s: State, now: int)
    requires Inv(s) && now >= s.clock
    ensures Inv(State(Prune(s.ledger, now), s.traces, now))
  {
    hide TraceSound, DayOf, DayBound;
    var after := State(Prune(s.ledger, now), s.traces, now);
    forall w | w in s.traces ensures TraceSound(after, w) { PruneKeepsTrace(s, now, w); }
    forall w ensures PresenceSound(after, w) { assert PresenceSound(s, w); }
    forall k | k in after.ledger.daily ensures DaySound(after, k) { assert DaySound(s, k); }
  }

  lemma ClockKeeps(s: State, now: int, n: nat)
    requires Inv(s) && now >= s.clock
    ensures Inv(State(s.ledger.(sincePrune := n), s.traces, now))
  {
    hide DayOf, DayBound;
    DayMonotone(s.clock - RETAIN_DAYS * DAY, now - RETAIN_DAYS * DAY);
    var after := State(s.ledger.(sincePrune := n), s.traces, now);
    forall w | w in s.traces ensures TraceSound(after, w) { assert TraceSound(s, w); }
    forall w ensures PresenceSound(after, w) { assert PresenceSound(s, w); }
    forall k | k in after.ledger.daily ensures DaySound(after, k) { assert DaySound(s, k); }
  }

  lemma NextKeeps(s: State, op: Op)
    requires Inv(s) && op.now >= s.clock
    ensures Inv(Next(s, op))
  {
    hide Inv, Apply, Prune, Traced;
    match op
    case Heartbeat(beat, now) =>
      if SubjectOf(beat).None? {
        ClockKeeps(s, now, s.ledger.sincePrune);
        Untraced(s, op);
      } else {
        var subject := SubjectOf(beat).value;
        BeatKeeps(s, subject, beat, now);
        var beaten := Beaten(s, subject, beat, now);
        var n := beaten.ledger.sincePrune + 1;
        if n >= PRUNE_EVERY {
          ClockKeeps(beaten, now, 0);
          PruneKeeps(State(beaten.ledger.(sincePrune := 0), beaten.traces, now), now);
        } else {
          ClockKeeps(beaten, now, n);
        }
      }
    case CleanUp(now) =>
      PruneKeeps(s, now);
      Untraced(s, op);
  }

  lemma Untraced(s: State, op: Op)
    requires op.CleanUp? || SubjectOf(op.beat).None?
    ensures Traced(s, op) == s.traces
  {
  }

  lemma {:induction false} Reachable(t: int, ops: seq<Op>)
    requires Monotone(Start(t), ops)
    ensures Inv(After(Start(t), ops))
  {
    if ops != [] {
      hide Inv, Next;
      Reachable(t, ops[..|ops| - 1]);
      NextKeeps(After(Start(t), ops[..|ops| - 1]), ops[|ops| - 1]);
    }
  }

  // ----- the bounds, in every run under a clock that does not go back -----

  /** A person's time on one client is never more than the time between their first and last heartbeat. */
  lemma NeverMoreThanElapsed(t: int, ops: seq<Op>, who: Who)
    requires Monotone(Start(t), ops) && who in After(Start(t), ops).traces
    ensures var s := After(Start(t), ops);
      && KeptSeconds(s.ledger, who) * SECOND <= s.traces[who].last - s.traces[who].first
      && KeptSeconds(s.ledger, who) <= s.traces[who].credited
      && s.traces[who].credited * SECOND <= s.traces[who].last - s.traces[who].first
  {
    hide After, Monotone, KeptSeconds;
    Reachable(t, ops);
    assert TraceSound(After(Start(t), ops), who);
  }

  /** Until their first day is 400 days old, everything credited to them is still there. */
  lemma {:induction false} NothingIsLostInTime(t: int, ops: seq<Op>, who: Who)
    requires Monotone(Start(t), ops) && who in After(Start(t), ops).traces
    requires var s := After(Start(t), ops); DayOf(s.traces[who].first) >= DayOf(s.clock - RETAIN_DAYS * DAY)
    ensures var s := After(Start(t), ops); KeptSeconds(s.ledger, who) == s.traces[who].credited
  {
    hide After, Monotone, KeptSeconds, DayOf;
    Reachable(t, ops);
    assert TraceSound(After(Start(t), ops), who);
  }

  /** A day's row holds less than a day and one capped gap, which may have begun the day before. */
  lemma {:induction false} DayRowsAreBounded(t: int, ops: seq<Op>, k: DayKey)
    requires Monotone(Start(t), ops) && k in After(Start(t), ops).ledger.daily
    ensures After(Start(t), ops).ledger.daily[k].seconds < 86_400 + MAX_CREDIT
  {
    hide After, Monotone;
    Reachable(t, ops);
    assert DaySound(After(Start(t), ops), k);
  }

  /** Applied heartbeats of one person on one client. */
  function Beats(s: State, ops: seq<Op>, who: Who): nat {
    if ops == [] then 0 else
      var front := ops[..|ops| - 1];
      Beats(s, front, who) + if Applied(After(s, front).ledger, ops[|ops| - 1]) == Some(who) then 1 else 0
  }

  /** Each of those heartbeats comes within 75 seconds of the one before, which was not a leave. */
  predicate Steady(s: State, ops: seq<Op>, who: Who) {
    ops == [] ||
    var front, op := ops[..|ops| - 1], ops[|ops| - 1];
    && Steady(s, front, who)
    && (Applied(After(s, front).ledger, op) == Some(who) ==>
          && who in After(s, front).traces
          && !After(s, front).traces[who].left
          && op.now - After(s, front).traces[who].last <= MAX_CREDIT * SECOND)
  }

  lemma SteadyGain(s: State, who: Who, op: Op)
    requires Inv(s) && op.now >= s.clock && Applied(s.ledger, op) == Some(who)
    requires who in s.traces && !s.traces[who].left && op.now - s.traces[who].last <= MAX_CREDIT * SECOND
    ensures Gain(s.ledger, who, op.beat.event, op.now) * SECOND > op.now - s.traces[who].last - SECOND
  {
    assert PresenceSound(s, who) && TraceSound(s, who);
  }

  lemma TraceMoves(s: State, who: Who, op: Op)
    requires who in s.traces
    ensures who in Next(s, op).traces
    ensures Applied(s.ledger, op) != Some(who) ==> Next(s, op).traces[who] == s.traces[who]
    ensures Applied(s.ledger, op) == Some(who) ==>
      && Next(s, op).traces[who].last == op.now
      && Next(s, op).traces[who].credited == s.traces[who].credited + Gain(s.ledger, who, op.beat.event, op.now)
  {
    hide Gain, NextLedger;
  }

  /**
   Steady use is credited almost in full. From any reachable state, over n applied heartbeats of one person
   with no leave and no gap over 75 seconds, whatever else happens between them, the credit exceeds the
   time that passed less n seconds.
   */
  lemma {:induction false} SteadyUseIsCredited(t: int, before: seq<Op>, ops: seq<Op>, who: Who)
    requires Monotone(Start(t), before) && Monotone(After(Start(t), before), ops)
    requires who in After(Start(t), before).traces && Steady(After(Start(t), before), ops, who)
    requires Beats(After(Start(t), before), ops, who) > 0
    ensures var s := After(Start(t), before); var after := After(s, ops);
      && who in after.traces
      && (after.traces[who].credited - s.traces[who].credited) * SECOND
           > after.traces[who].last - s.traces[who].last - Beats(s, ops, who) * SECOND
  {
    hide After, Monotone, Steady, Inv;
    Reachable(t, before);
    SteadyFrom(After(Start(t), before), ops, who);
  }

  lemma {:induction false} SteadyFrom(s: State, ops: seq<Op>, who: Who)
    requires Inv(s) && Monotone(s, ops) && who in s.traces && Steady(s, ops, who)
    ensures var after := After(s, ops);
      && Inv(after) && who in after.traces
      && (after.traces[who].credited - s.traces[who].credited) * SECOND
           >= after.traces[who].last - s.traces[who].last - Beats(s, ops, who) * (SECOND - 1)
  {
    hide Inv, Next, Applied, Gain;
    if ops != [] {
      var front, op := ops[..|ops| - 1], ops[|ops| - 1];
      SteadyFrom(s, front, who);
      var mid := After(s, front);
      NextKeeps(mid, op);
      TraceMoves(mid, who, op);
      if Applied(mid.ledger, op) == Some(who) { SteadyGain(mid, who, op); }
    }
  }
}
