/**
 Usage heartbeats: who is where now, seconds per person per day, seconds and views per page per day.

 Times are in microseconds. A page is the text that page grouping made of what the client sent.
 */
module Activity {
  import opened Prelude
  import opened Sums

  const SECOND: nat := 1_000_000
  const DAY: nat := 86_400 * SECOND
  const GAP: nat := 150
  const MAX_CREDIT: nat := 75
  const MIN_BEAT: nat := 10
  const RETAIN_DAYS: nat := 400
  const PRESENCE_KEPT: nat := 30 * DAY
  const PRUNE_EVERY: nat := 500

  datatype Client = Web | Desktop
  datatype Event = View | Still | Leave
  type Page = string
  type Subject = string

  datatype Beat = Beat(
    client: Client, page: Page, event: Event, user: Option<string>, visitor: Option<string>, version: string)

  datatype Who = Who(subject: Subject, client: Client)
  datatype DayKey = DayKey(subject: Subject, day: int, client: Client)
  datatype PageKey = PageKey(day: int, client: Client, page: Page)
  datatype Slot = Slot(day: int, client: Client)

  datatype Presence = Presence(
    user: Option<string>, page: Page, version: string, visitStarted: int, lastSeen: int, left: bool)
  datatype DailyRow = DailyRow(user: Option<string>, seconds: nat)
  datatype PageRow = PageRow(views: nat, seconds: nat)

  datatype Ledger = Ledger(
    presence: map<Who, Presence>, daily: map<DayKey, DailyRow>, pages: map<PageKey, PageRow>, sincePrune: nat)

  const EMPTY := Ledger(map[], map[], map[], 0)

  /** The UTC day a moment is on, counted from the epoch. */
  function DayOf(t: int): int { t / DAY }

  /** Python's truth of an optional text: None and "" are false. */
  predicate Given(text: Option<string>) { text.Some? && text.value != "" }

  function SubjectOf(beat: Beat): Option<Subject> {
    if Given(beat.user) then Some("u:" + beat.user.value)
    else if Given(beat.visitor) then Some("v:" + beat.visitor.value)
    else None
  }

  // ----- what one heartbeat does -----

  /** A beat that comes too soon after the last one. */
  predicate Ignored(l: Ledger, who: Who, event: Event, now: int) {
    && who in l.presence && event == Still && !l.presence[who].left
    && 0 <= now - l.presence[who].lastSeen < MIN_BEAT * SECOND
  }

  predicate Continues(l: Ledger, who: Who, now: int) {
    && who in l.presence && !l.presence[who].left
    && 0 <= now - l.presence[who].lastSeen <= GAP * SECOND
  }

  /** Seconds credited for the time since the last heartbeat. */
  function Gain(l: Ledger, who: Who, event: Event, now: int): nat {
    if Ignored(l, who, event, now) || !Continues(l, who, now) then 0 else
      var since := now - l.presence[who].lastSeen;
      (if since < MAX_CREDIT * SECOND then since else MAX_CREDIT * SECOND) / SECOND
  }

  function PageAt(pages: map<PageKey, PageRow>, k: PageKey): PageRow {
    if k in pages then pages[k] else PageRow(0, 0)
  }

  function CreditDaily(daily: map<DayKey, DailyRow>, k: DayKey, user: Option<string>, seconds: nat): map<DayKey, DailyRow> {
    if seconds == 0 then daily else
      daily[k := if k in daily then DailyRow(daily[k].user, daily[k].seconds + seconds) else DailyRow(user, seconds)]
  }

  function CreditPage(pages: map<PageKey, PageRow>, k: PageKey, seconds: nat): map<PageKey, PageRow> {
    if seconds == 0 then pages else pages[k := PageRow(PageAt(pages, k).views, PageAt(pages, k).seconds + seconds)]
  }

  function CountView(pages: map<PageKey, PageRow>, k: PageKey, event: Event): map<PageKey, PageRow> {
    if event != View then pages else pages[k := PageRow(PageAt(pages, k).views + 1, PageAt(pages, k).seconds)]
  }

  function Seen(l: Ledger, who: Who, beat: Beat, now: int): Presence {
    Presence(beat.user, beat.page,
      if beat.version != "" then Truncated(beat.version) else if who in l.presence then l.presence[who].version else "",
      if Continues(l, who, now) then l.presence[who].visitStarted else now,
      now, beat.event == Leave)
  }

  function Truncated(version: string): string { if |version| > 32 then version[..32] else version }

  /** One heartbeat: the time since the last one goes to that person's day and to the page they were on. */
  function Apply(l: Ledger, subject: Subject, beat: Beat, now: int): Ledger {
    var who := Who(subject, beat.client);
    if Ignored(l, who, beat.event, now) then l else
      var gain := Gain(l, who, beat.event, now);
      var was := if who in l.presence then l.presence[who].page else beat.page;
      var pages := CreditPage(l.pages, PageKey(DayOf(now), beat.client, was), gain);
      l.(presence := l.presence[who := Seen(l, who, beat, now)],
         daily := CreditDaily(l.daily, DayKey(subject, DayOf(now), beat.client), beat.user, gain),
         pages := CountView(pages, PageKey(DayOf(now), beat.client, beat.page), beat.event))
  }

  function Prune(l: Ledger, now: int): Ledger {
    var oldest := DayOf(now - RETAIN_DAYS * DAY);
    Ledger(
      map k | k in l.presence && l.presence[k].lastSeen >= now - PRESENCE_KEPT :: l.presence[k],
      map k | k in l.daily && k.day >= oldest :: l.daily[k],
      map k | k in l.pages && k.day >= oldest :: l.pages[k],
      l.sincePrune)
  }

  /** A heartbeat and, every so many of them, a clean-up. */
  function Record(l: Ledger, beat: Beat, now: int): Ledger {
    if SubjectOf(beat).None? then l else
      var after := Apply(l, SubjectOf(beat).value, beat, now);
      if after.sincePrune + 1 >= PRUNE_EVERY then Prune(after.(sincePrune := 0), now)
      else after.(sincePrune := after.sincePrune + 1)
  }

  // ----- the two ledgers -----

  ghost function DailySeconds(daily: map<DayKey, DailyRow>): map<DayKey, nat> { map k | k in daily :: daily[k].seconds }
  ghost function PageSeconds(pages: map<PageKey, PageRow>): map<PageKey, nat> { map k | k in pages :: pages[k].seconds }

  function DaySlot(k: DayKey): Slot { Slot(k.day, k.client) }
  function PageSlot(k: PageKey): Slot { Slot(k.day, k.client) }
  function WhoOf(k: DayKey): Who { Who(k.subject, k.client) }

  /** On every day and client, seconds summed over people equal seconds summed over pages. */
  ghost predicate Agree(l: Ledger) {
    forall slot :: GroupTotal(DailySeconds(l.daily), DaySlot, slot) == GroupTotal(PageSeconds(l.pages), PageSlot, slot)
  }

  lemma CreditDailyTotal<G(!new)>(daily: map<DayKey, DailyRow>, k: DayKey, user: Option<string>, seconds: nat, group: DayKey -> G, g: G)
    ensures GroupTotal(DailySeconds(CreditDaily(daily, k, user, seconds)), group, g)
         == GroupTotal(DailySeconds(daily), group, g) + if group(k) == g then seconds else 0
  {
    var m, after := DailySeconds(daily), DailySeconds(CreditDaily(daily, k, user, seconds));
    if seconds != 0 {
      assert after == m[k := Value(m, k) + seconds];
      GroupWrite(m, group, g, k, Value(m, k) + seconds);
    }
  }

  lemma CreditPageTotal(pages: map<PageKey, PageRow>, k: PageKey, seconds: nat, slot: Slot)
    ensures GroupTotal(PageSeconds(CreditPage(pages, k, seconds)), PageSlot, slot)
         == GroupTotal(PageSeconds(pages), PageSlot, slot) + if PageSlot(k) == slot then seconds else 0
  {
    var m, after := PageSeconds(pages), PageSeconds(CreditPage(pages, k, seconds));
    if seconds != 0 {
      assert after == m[k := Value(m, k) + seconds];
      GroupWrite(m, PageSlot, slot, k, Value(m, k) + seconds);
    }
  }

  lemma CountViewTotal(pages: map<PageKey, PageRow>, k: PageKey, event: Event, slot: Slot)
    ensures GroupTotal(PageSeconds(CountView(pages, k, event)), PageSlot, slot) == GroupTotal(PageSeconds(pages), PageSlot, slot)
  {
    var m, after := PageSeconds(pages), PageSeconds(CountView(pages, k, event));
    if event == View {
      assert after == m[k := Value(m, k)];
      GroupWrite(m, PageSlot, slot, k, Value(m, k));
    }
  }

  lemma ApplyAgrees(l: Ledger, subject: Subject, beat: Beat, now: int)
    requires Agree(l)
    ensures Agree(Apply(l, subject, beat, now))
  {
    hide GroupTotal, Gain, CreditDaily, CreditPage, CountView, Seen, Total;
    var who := Who(subject, beat.client);
    if !Ignored(l, who, beat.event, now) {
      var gain := Gain(l, who, beat.event, now);
      var was := if who in l.presence then l.presence[who].page else beat.page;
      var k := PageKey(DayOf(now), beat.client, was);
      var after := Apply(l, subject, beat, now);
      forall slot ensures GroupTotal(DailySeconds(after.daily), DaySlot, slot) == GroupTotal(PageSeconds(after.pages), PageSlot, slot) {
        CreditDailyTotal(l.daily, DayKey(subject, DayOf(now), beat.client), beat.user, gain, DaySlot, slot);
        CreditPageTotal(l.pages, k, gain, slot);
        CountViewTotal(CreditPage(l.pages, k, gain), PageKey(DayOf(now), beat.client, beat.page), beat.event, slot);
      }
    }
  }

  lemma EmptyAgrees()
    ensures Agree(EMPTY)
  {
    forall slot ensures GroupTotal(DailySeconds(EMPTY.daily), DaySlot, slot) == GroupTotal(PageSeconds(EMPTY.pages), PageSlot, slot) {
      assert Group(DailySeconds(EMPTY.daily), DaySlot, slot) == map[];
      assert Group(PageSeconds(EMPTY.pages), PageSlot, slot) == map[];
    }
  }

  lemma CountOnlyAgrees(l: Ledger, n: nat)
    requires Agree(l)
    ensures Agree(l.(sincePrune := n))
  {
  }

  lemma PruneAgrees(l: Ledger, now: int)
    requires Agree(l)
    ensures Agree(Prune(l, now))
  {
    hide GroupTotal;
    var oldest := DayOf(now - RETAIN_DAYS * DAY);
    var after := Prune(l, now);
    var keep := (slot: Slot) => slot.day >= oldest;
    var daily, pages := PartBy(DailySeconds(l.daily), DaySlot, keep), PartBy(PageSeconds(l.pages), PageSlot, keep);
    assert DailySeconds(after.daily) == daily;
    assert PageSeconds(after.pages) == pages;
    forall slot ensures GroupTotal(daily, DaySlot, slot) == GroupTotal(pages, PageSlot, slot) {
      PartOfGroup(DailySeconds(l.daily), DaySlot, keep, slot);
      PartOfGroup(PageSeconds(l.pages), PageSlot, keep, slot);
    }
  }
}
