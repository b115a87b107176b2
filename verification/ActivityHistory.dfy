/** The activity tables told by the heartbeats themselves: who was where, for how long, whatever the tables held between. */
module ActivityHistory {
  import opened Prelude
  import opened Activity
  import opened ActivityRuns

  /** A heartbeat that was applied. */
  datatype Entry = Entry(who: Who, beat: Beat, at: int)

  /** Somebody's newest heartbeat on one client. */
  function LastOf(h: seq<Entry>, who: Who): Option<Entry> {
    if h == [] then None
    else if h[|h| - 1].who == who then Some(h[|h| - 1])
    else LastOf(h[..|h| - 1], who)
  }

  /** A repeat within ten seconds of the one before, which was not a leave. */
  predicate TooSoon(h: seq<Entry>, who: Who, event: Event, now: int) {
    match LastOf(h, who)
    case None => false
    case Some(e) => event == Still && e.beat.event != Leave && 0 <= now - e.at < MIN_BEAT * SECOND
  }

  /** At most 150 seconds after the one before, which was not a leave. */
  predicate Goes(h: seq<Entry>, who: Who, now: int) {
    match LastOf(h, who)
    case None => false
    case Some(e) => e.beat.event != Leave && 0 <= now - e.at <= GAP * SECOND
  }

  /** Whole seconds since the one before, at most 75. */
  function Worth(h: seq<Entry>, who: Who, now: int): nat {
    if !Goes(h, who, now) then 0 else
      var since := (now - LastOf(h, who).value.at) / SECOND;
      if since < MAX_CREDIT then since else MAX_CREDIT
  }

  /** Where their present visit began. */
  function VisitStart(h: seq<Entry>, who: Who): int {
    if h == [] then 0 else
      var front, e := h[..|h| - 1], h[|h| - 1];
      if e.who != who || Goes(front, who, e.at) then VisitStart(front, who) else e.at
  }

  /** The newest version they sent; None when a silence of 30 days may have lost it. */
  function VersionOf(h: seq<Entry>, who: Who): Option<string> {
    if h == [] then Some("") else
      var front, e := h[..|h| - 1], h[|h| - 1];
      if e.who != who then VersionOf(front, who)
      else if e.beat.version != "" then Some(if |e.beat.version| > 32 then e.beat.version[..32] else e.beat.version)
      else match LastOf(front, who)
        case None => Some("")
        case Some(before) => if e.at - before.at <= PRESENCE_KEPT then VersionOf(front, who) else None
  }

  /** The seconds of a day that belong to one person on one client. */
  function SecondsOf(h: seq<Entry>, k: DayKey): nat {
    if h == [] then 0 else
      var front, e := h[..|h| - 1], h[|h| - 1];
      SecondsOf(front, k) + if e.who == Who(k.subject, k.client) && DayOf(e.at) == k.day then Worth(front, e.who, e.at) else 0
  }

  predicate WasOn(h: seq<Entry>, who: Who, page: Page) { LastOf(h, who).Some? && LastOf(h, who).value.beat.page == page }

  /** The seconds of a day that were spent on a page: those of each heartbeat whose sender's one before came from it. */
  function SecondsOn(h: seq<Entry>, k: PageKey): nat {
    if h == [] then 0 else
      var front, e := h[..|h| - 1], h[|h| - 1];
      SecondsOn(front, k)
        + if e.who.client == k.client && DayOf(e.at) == k.day && WasOn(front, e.who, k.page) then Worth(front, e.who, e.at) else 0
  }

  function ViewsOf(h: seq<Entry>, k: PageKey): nat {
    if h == [] then 0 else
      var e := h[|h| - 1];
      ViewsOf(h[..|h| - 1], k)
        + if e.beat.event == View && e.who.client == k.client && DayOf(e.at) == k.day && e.beat.page == k.page then 1 else 0
  }

  function Heard(h: seq<Entry>, op: Op): seq<Entry> {
    if op.CleanUp? || SubjectOf(op.beat).None? then h else
      var who := Who(SubjectOf(op.beat).value, op.beat.client);
      if TooSoon(h, who, op.beat.event, op.now) then h else h + [Entry(who, op.beat, op.now)]
  }

  /** The applied heartbeats of a run. */
  function History(ops: seq<Op>): seq<Entry> {
    if ops == [] then [] else Heard(History(ops[..|ops| - 1]), ops[|ops| - 1])
  }

  // ----- the tables say the same -----

  predicate SameVisit(p: Presence, h: seq<Entry>, who: Who) {
    && LastOf(h, who).Some? && var e := LastOf(h, who).value;
    && p.user == e.beat.user && p.page == e.beat.page && p.lastSeen == e.at && (p.left <==> e.beat.event == Leave)
    && p.visitStarted == VisitStart(h, who)
    && (VersionOf(h, who).Some? ==> p.version == VersionOf(h, who).value)
  }

  /** Presence is the last heartbeat, for 30 days. */
  ghost predicate PresenceTells(l: Ledger, h: seq<Entry>, clock: int, who: Who) {
    && (who in l.presence ==> SameVisit(l.presence[who], h, who))
    && (LastOf(h, who).Some? ==> LastOf(h, who).value.at <= clock)
    && (who !in l.presence && LastOf(h, who).Some? ==> LastOf(h, who).value.at < clock - PRESENCE_KEPT)
  }

  predicate Past(day: int, clock: int) { day < DayOf(clock - RETAIN_DAYS * DAY) }

  /** A day's row holds the seconds of the day; it is gone, or never was, when there are none or the day is past keeping. */
  ghost predicate DayTells(l: Ledger, h: seq<Entry>, clock: int, k: DayKey) {
    && (k in l.daily ==> l.daily[k].seconds == SecondsOf(h, k) > 0)
    && (k !in l.daily ==> SecondsOf(h, k) == 0 || Past(k.day, clock))
  }

  ghost predicate PageTells(l: Ledger, h: seq<Entry>, clock: int, k: PageKey) {
    && (k in l.pages ==> l.pages[k] == PageRow(ViewsOf(h, k), SecondsOn(h, k)))
    && (k !in l.pages ==> (ViewsOf(h, k) == 0 && SecondsOn(h, k) == 0) || Past(k.day, clock))
  }

  /** A row's account is its subject's; a visitor's row has none. */
  predicate Owned(subject: Subject, user: Option<string>) {
    if Given(user) then subject == "u:" + user.value else subject != "" && subject[0] == 'v'
  }

  ghost predicate Tells(l: Ledger, h: seq<Entry>, clock: int) {
    && (forall who :: PresenceTells(l, h, clock, who))
    && (forall k :: DayTells(l, h, clock, k))
    && (forall k :: PageTells(l, h, clock, k))
    && (forall k | k in l.daily :: Owned(k.subject, l.daily[k].user))
  }

  /** What is decided about a heartbeat is decided by the one before. */
  lemma SameDecision(l: Ledger, h: seq<Entry>, clock: int, who: Who, event: Event, now: int)
    requires PresenceTells(l, h, clock, who) && now >= clock
    ensures Ignored(l, who, event, now) == TooSoon(h, who, event, now)
    ensures Continues(l, who, now) == Goes(h, who, now)
    ensures !Ignored(l, who, event, now) ==> Gain(l, who, event, now) == Worth(h, who, now)
    ensures Goes(h, who, now) ==> who in l.presence
  {
  }

  lemma Grown(h: seq<Entry>, e: Entry)
    ensures (h + [e])[..|h + [e]| - 1] == h && (h + [e])[|h + [e]| - 1] == e
  {
  }

  lemma BeatPresence(l: Ledger, h: seq<Entry>, clock: int, subject: Subject, beat: Beat, now: int, who: Who)
    requires PresenceTells(l, h, clock, who) && PresenceTells(l, h, clock, Who(subject, beat.client)) && now >= clock
    requires !Ignored(l, Who(subject, beat.client), beat.event, now)
    ensures PresenceTells(Apply(l, subject, beat, now), h + [Entry(Who(subject, beat.client), beat, now)], now, who)
  {
    hide CreditDaily, CreditPage, CountView, Gain, Ignored;
    SameDecision(l, h, clock, Who(subject, beat.client), beat.event, now);
    Grown(h, Entry(Who(subject, beat.client), beat, now));
  }

  lemma BeatDay(l: Ledger, h: seq<Entry>, clock: int, subject: Subject, beat: Beat, now: int, k: DayKey)
    requires DayTells(l, h, clock, k) && PresenceTells(l, h, clock, Who(subject, beat.client)) && now >= clock
    requires !Ignored(l, Who(subject, beat.client), beat.event, now)
    ensures DayTells(Apply(l, subject, beat, now), h + [Entry(Who(subject, beat.client), beat, now)], now, k)
  {
    hide CreditPage, CountView, Gain, Ignored, Worth, Seen, DayOf;
    SameDecision(l, h, clock, Who(subject, beat.client), beat.event, now);
    Grown(h, Entry(Who(subject, beat.client), beat, now));
    DayMonotone(clock - RETAIN_DAYS * DAY, now - RETAIN_DAYS * DAY);
    TodayIsKept(now);
  }

  lemma TodayIsKept(now: int)
    ensures !Past(DayOf(now), now)
  {
  }

  lemma BeatPage(l: Ledger, h: seq<Entry>, clock: int, subject: Subject, beat: Beat, now: int, k: PageKey)
    requires PageTells(l, h, clock, k) && PresenceTells(l, h, clock, Who(subject, beat.client)) && now >= clock
    requires !Ignored(l, Who(subject, beat.client), beat.event, now)
    ensures PageTells(Apply(l, subject, beat, now), h + [Entry(Who(subject, beat.client), beat, now)], now, k)
  {
    hide CreditDaily, Gain, Ignored, Seen, DayOf;
    var who := Who(subject, beat.client);
    SameDecision(l, h, clock, who, beat.event, now);
    Grown(h, Entry(who, beat, now));
    DayMonotone(clock - RETAIN_DAYS * DAY, now - RETAIN_DAYS * DAY);
    TodayIsKept(now);
    assert Worth(h, who, now) > 0 ==> who in l.presence && l.presence[who].page == LastOf(h, who).value.beat.page;
    hide Worth;
  }

  lemma BeatOwned(l: Ledger, subject: Subject, beat: Beat, now: int)
    requires SubjectOf(beat) == Some(subject) && forall k | k in l.daily :: Owned(k.subject, l.daily[k].user)
    ensures var after := Apply(l, subject, beat, now); forall k | k in after.daily :: Owned(k.subject, after.daily[k].user)
  {
    hide CreditPage, CountView, Gain, Ignored, Seen, DayOf;
  }

  lemma BeatTells(l: Ledger, h: seq<Entry>, clock: int, subject: Subject, beat: Beat, now: int)
    requires Tells(l, h, clock) && SubjectOf(beat) == Some(subject) && now >= clock
    ensures Tells(Apply(l, subject, beat, now), Heard(h, Heartbeat(beat, now)), now)
  {
    hide Apply, PresenceTells, DayTells, PageTells, Owned, Ignored, TooSoon;
    var who := Who(subject, beat.client);
    assert PresenceTells(l, h, clock, who);
    SameDecision(l, h, clock, who, beat.event, now);
    if Ignored(l, who, beat.event, now) {
      IgnoredChanges(l, subject, beat, now);
      LaterTells(l, h, clock, now, l.sincePrune);
    } else {
      var after, longer := Apply(l, subject, beat, now), h + [Entry(who, beat, now)];
      forall w ensures PresenceTells(after, longer, now, w) { BeatPresence(l, h, clock, subject, beat, now, w); }
      forall k ensures DayTells(after, longer, now, k) { BeatDay(l, h, clock, subject, beat, now, k); }
      forall k ensures PageTells(after, longer, now, k) { BeatPage(l, h, clock, subject, beat, now, k); }
      BeatOwned(l, subject, beat, now);
    }
  }

  lemma IgnoredChanges(l: Ledger, subject: Subject, beat: Beat, now: int)
    requires Ignored(l, Who(subject, beat.client), beat.event, now)
    ensures Apply(l, subject, beat, now) == l
  {
  }

  lemma LaterTells(l: Ledger, h: seq<Entry>, clock: int, now: int, n: nat)
    requires Tells(l, h, clock) && now >= clock
    ensures Tells(l.(sincePrune := n), h, now)
  {
    hide SameVisit, SecondsOf, SecondsOn, ViewsOf, LastOf, Owned, DayOf;
    DayMonotone(clock - RETAIN_DAYS * DAY, now - RETAIN_DAYS * DAY);
    var after := l.(sincePrune := n);
    forall w ensures PresenceTells(after, h, now, w) { assert PresenceTells(l, h, clock, w); }
    forall k ensures DayTells(after, h, now, k) { assert DayTells(l, h, clock, k); }
    forall k ensures PageTells(after, h, now, k) { assert PageTells(l, h, clock, k); }
  }

  lemma PruneTells(l: Ledger, h: seq<Entry>, now: int)
    requires Tells(l, h, now)
    ensures Tells(Prune(l, now), h, now)
  {
    hide SecondsOf, SecondsOn, ViewsOf, LastOf, VisitStart, VersionOf, Owned, DayOf;
    var after := Prune(l, now);
    forall w ensures PresenceTells(after, h, now, w) { assert PresenceTells(l, h, now, w); }
    forall k ensures DayTells(after, h, now, k) { assert DayTells(l, h, now, k); }
    forall k ensures PageTells(after, h, now, k) { assert PageTells(l, h, now, k); }
  }

  lemma NextTells(l: Ledger, h: seq<Entry>, clock: int, op: Op)
    requires Tells(l, h, clock) && op.now >= clock
    ensures Tells(NextLedger(l, op), Heard(h, op), op.now)
  {
    hide Tells, Apply, Prune, TooSoon;
    var now := op.now;
    LaterTells(l, h, clock, now, l.sincePrune);
    if op.CleanUp? {
      PruneTells(l, h, now);
    } else if SubjectOf(op.beat).Some? {
      BeatTells(l, h, clock, SubjectOf(op.beat).value, op.beat, now);
      var after, longer := Apply(l, SubjectOf(op.beat).value, op.beat, now), Heard(h, op);
      LaterTells(after, longer, now, now, 0);
      LaterTells(after, longer, now, now, after.sincePrune + 1);
      PruneTells(after.(sincePrune := 0), longer, now);
    }
  }

  lemma NothingTold(t: int)
    ensures Tells(EMPTY, [], t)
  {
  }

  /** After every run under a clock that does not go back, the tables are what its heartbeats make them. */
  lemma {:induction false} TablesTell(t: int, ops: seq<Op>)
    requires Monotone(Start(t), ops)
    ensures Tells(After(Start(t), ops).ledger, History(ops), After(Start(t), ops).clock)
  {
    if ops == [] {
      NothingTold(t);
    } else {
      hide Tells, NextLedger, Heard, Traced;
      TablesTell(t, ops[..|ops| - 1]);
      var s := After(Start(t), ops[..|ops| - 1]);
      NextTells(s.ledger, History(ops[..|ops| - 1]), s.clock, ops[|ops| - 1]);
    }
  }

  /**
   A page's row: its views are the views sent with it that day on that client, and its seconds those of every
   heartbeat whose sender was on it before, be the heartbeat from there or from elsewhere.
   */
  lemma {:induction false} PageRowTells(t: int, ops: seq<Op>, k: PageKey)
    requires Monotone(Start(t), ops)
    ensures var s, h := After(Start(t), ops), History(ops);
      && (k in s.ledger.pages ==> s.ledger.pages[k].views == ViewsOf(h, k) && s.ledger.pages[k].seconds == SecondsOn(h, k))
      && (k !in s.ledger.pages ==> (ViewsOf(h, k) == 0 && SecondsOn(h, k) == 0) || k.day < DayOf(s.clock - RETAIN_DAYS * DAY))
  {
    hide After, Monotone, History, ViewsOf, SecondsOn, DayOf, DayTells, PresenceTells, Owned;
    TablesTell(t, ops);
    assert PageTells(After(Start(t), ops).ledger, History(ops), After(Start(t), ops).clock, k);
  }

  /** A person's row of a day: the seconds of their heartbeats on it, and their account. */
  lemma {:induction false} DayRowTells(t: int, ops: seq<Op>, k: DayKey)
    requires Monotone(Start(t), ops)
    ensures var s, h := After(Start(t), ops), History(ops);
      && (k in s.ledger.daily ==> s.ledger.daily[k].seconds == SecondsOf(h, k) && Owned(k.subject, s.ledger.daily[k].user))
      && (k !in s.ledger.daily ==> SecondsOf(h, k) == 0 || k.day < DayOf(s.clock - RETAIN_DAYS * DAY))
  {
    hide After, Monotone, History, SecondsOf, DayOf, PageTells, PresenceTells, Owned;
    TablesTell(t, ops);
    assert DayTells(After(Start(t), ops).ledger, History(ops), After(Start(t), ops).clock, k);
  }

  /** A heartbeat is ignored exactly when it repeats within ten seconds the sender's last, which was not a leave. */
  lemma {:induction false} IgnoredExactly(t: int, ops: seq<Op>, who: Who, event: Event, now: int)
    requires Monotone(Start(t), ops) && now >= After(Start(t), ops).clock
    ensures Ignored(After(Start(t), ops).ledger, who, event, now) <==> TooSoon(History(ops), who, event, now)
  {
    hide After, Monotone, History, TooSoon, Ignored, DayTells, PageTells, PresenceTells, Owned;
    TablesTell(t, ops);
    var s := After(Start(t), ops);
    assert PresenceTells(s.ledger, History(ops), s.clock, who);
    SameDecision(s.ledger, History(ops), s.clock, who, event, now);
  }

  /** Who is shown online, where and since when. */
  lemma {:induction false} PresenceRowTells(t: int, ops: seq<Op>, who: Who)
    requires Monotone(Start(t), ops)
    ensures var s, h := After(Start(t), ops), History(ops);
      && (who in s.ledger.presence ==> SameVisit(s.ledger.presence[who], h, who))
      && (LastOf(h, who).Some? && LastOf(h, who).value.at >= s.clock - PRESENCE_KEPT ==> who in s.ledger.presence)
  {
    hide After, Monotone, History, LastOf, DayTells, PageTells, SameVisit, Owned;
    TablesTell(t, ops);
    assert PresenceTells(After(Start(t), ops).ledger, History(ops), After(Start(t), ops).clock, who);
  }

  // ----- what is past keeping goes -----

  ghost predicate NothingPast(l: Ledger, now: int) {
    && (forall who | who in l.presence :: l.presence[who].lastSeen >= now - PRESENCE_KEPT)
    && (forall k | k in l.daily :: k.day >= DayOf(now - RETAIN_DAYS * DAY))
    && (forall k | k in l.pages :: k.day >= DayOf(now - RETAIN_DAYS * DAY))
  }

  /** Heartbeats with anybody to credit, applied or ignored. */
  function Beaten(ops: seq<Op>): nat {
    if ops == [] then 0 else
      var op := ops[|ops| - 1];
      Beaten(ops[..|ops| - 1]) + if op.Heartbeat? && SubjectOf(op.beat).Some? then 1 else 0
  }

  lemma PruneForgets(l: Ledger, now: int)
    ensures NothingPast(Prune(l, now), now)
  {
    hide DayOf;
  }

  lemma {:induction false} CounterTells(t: int, ops: seq<Op>)
    ensures After(Start(t), ops).ledger.sincePrune == Beaten(ops) % PRUNE_EVERY
  {
    hide Apply, Prune, Traced;
    if ops != [] {
      CounterTells(t, ops[..|ops| - 1]);
      var l, op := After(Start(t), ops[..|ops| - 1]).ledger, ops[|ops| - 1];
      CounterStays(l, op);
    }
  }

  lemma CounterStays(l: Ledger, op: Op)
    ensures op.Heartbeat? && SubjectOf(op.beat).Some? ==> Apply(l, SubjectOf(op.beat).value, op.beat, op.now).sincePrune == l.sincePrune
    ensures forall m: Ledger :: Prune(m, op.now).sincePrune == m.sincePrune
  {
    hide Gain, CreditDaily, CreditPage, CountView, Seen, DayOf;
  }

  /** After a clean-up, and after every 500th heartbeat, nothing past keeping is left. */
  lemma {:induction false} PastIsForgotten(t: int, ops: seq<Op>)
    requires ops != [] && var op := ops[|ops| - 1];
      op.CleanUp? || (SubjectOf(op.beat).Some? && Beaten(ops) % PRUNE_EVERY == 0)
    ensures NothingPast(After(Start(t), ops).ledger, ops[|ops| - 1].now)
  {
    hide NothingPast, Apply, Prune, Traced;
    var front, op := ops[..|ops| - 1], ops[|ops| - 1];
    var l := After(Start(t), front).ledger;
    CounterTells(t, front);
    CounterStays(l, op);
    if op.CleanUp? {
      PruneForgets(l, op.now);
    } else {
      PruneForgets(Apply(l, SubjectOf(op.beat).value, op.beat, op.now).(sincePrune := 0), op.now);
    }
  }
}
