/** The activity service over its tables: heartbeats change the rows in place, the overview adds them up in loops. */
module ActivityTracker {
  import opened Prelude
  import opened Sums
  import opened Activity
  import opened ActivityPortal

  /** The range part of the overview, before sorting and cutting to the top pages. */
  datatype Overview = Overview(
    range: Range, web: nat, desktop: nat, daily: map<int, DayLine>, pages: map<Page, PageLine>, accounts: map<string, AccountLine>)

  /** Columns of the overview's tables. */
  ghost function DayColumn(lines: map<int, DayLine>): map<int, nat> { map d | d in lines :: lines[d].seconds }
  ghost function PageColumn(lines: map<Page, PageLine>): map<Page, nat> { map p | p in lines :: lines[p].seconds }
  ghost function WebColumn(lines: map<Page, PageLine>): map<Page, nat> { map p | p in lines :: lines[p].web }
  ghost function DesktopColumn(lines: map<Page, PageLine>): map<Page, nat> { map p | p in lines :: lines[p].desktop }

  /** The accounts with any time at all. */
  function Users(rows: map<DayKey, DailyRow>): set<string> {
    set k | k in rows && rows[k].user.Some? :: rows[k].user.value
  }

  lemma UsersWith(rows: map<DayKey, DailyRow>, k: DayKey, row: DailyRow)
    requires k !in rows
    ensures Users(rows[k := row]) == if row.user.Some? then Users(rows) + {row.user.value} else Users(rows)
  {
    var more := rows[k := row];
    forall u | u in Users(rows) ensures u in Users(more) {
      var j :| j in rows && rows[j].user == Some(u);
      assert j in more && more[j].user == Some(u);
    }
    if row.user.Some? { assert k in more && more[k].user == row.user; }
  }

  lemma NoUsers()
    ensures Users(map[]) == {}
  {
  }

  ghost function AccountColumn(lines: map<string, AccountLine>): map<string, nat> { map u | u in lines :: lines[u].inRange }

  class Tracker {
    var presence: map<Who, Presence>
    var daily: map<DayKey, DailyRow>
    var pages: map<PageKey, PageRow>
    var sincePrune: nat

    ghost function Book(): Ledger
      reads this
    {
      Ledger(presence, daily, pages, sincePrune)
    }

    ghost predicate Valid()
      reads this
    {
      Agree(Book())
    }

    lemma ValidIs()
      requires Valid()
      ensures Agree(Book()) && Book() == Ledger(presence, daily, pages, sincePrune)
    {
    }

    constructor ()
      ensures Valid() && Book() == EMPTY
    {
      presence, daily, pages, sincePrune := map[], map[], map[], 0;
      new;
      EmptyAgrees();
    }

    /** The page's row for the day, made when it is not there. */
    method PageRowFor(k: PageKey)
      modifies this`pages
      ensures pages == old(pages)[k := PageAt(old(pages), k)]
    {
      if k !in pages {
        pages := pages[k := PageRow(0, 0)];
      }
    }

    method Credit(k: DayKey, user: Option<string>, page: Page, seconds: int)
      requires seconds >= 0
      modifies this`daily, this`pages
      ensures daily == CreditDaily(old(daily), k, user, seconds)
      ensures pages == CreditPage(old(pages), PageKey(k.day, k.client, page), seconds)
    {
      if seconds <= 0 {
        return;
      }
      if k !in daily {
        daily := daily[k := DailyRow(user, 0)];
      }
      daily := daily[k := daily[k].(seconds := daily[k].seconds + seconds)];
      var p := PageKey(k.day, k.client, page);
      PageRowFor(p);
      pages := pages[p := pages[p].(seconds := pages[p].seconds + seconds)];
    }

    method ApplyBeat(beat: Beat, subject: Subject, now: int) returns (applied: bool)
      requires Valid()
      modifies this`presence, this`daily, this`pages
      ensures Book() == Apply(old(Book()), subject, beat, now)
      ensures applied == !Ignored(old(Book()), Who(subject, beat.client), beat.event, now)
      ensures Valid()
    {
      hide Agree, CreditDaily, CreditPage, Truncated, PageAt;
      ghost var prior := Book();
      ApplyAgrees(prior, subject, beat, now);
      var who, day := Who(subject, beat.client), DayOf(now);
      var started, version := now, "";
      if who in presence {
        var since := now - presence[who].lastSeen;
        if beat.event == Still && 0 <= since < MIN_BEAT * SECOND && !presence[who].left {
          return false;
        }
        version := presence[who].version;
        if !presence[who].left && 0 <= since <= GAP * SECOND {
          started := presence[who].visitStarted;
          Credit(DayKey(subject, day, beat.client), beat.user, presence[who].page,
            (if since < MAX_CREDIT * SECOND then since else MAX_CREDIT * SECOND) / SECOND);
        }
      }
      CountViewOf(PageKey(day, beat.client, beat.page), beat.event);
      NoCredit(prior, DayKey(subject, day, beat.client), beat.user);
      presence := presence[who := Presence(beat.user, beat.page,
        if beat.version != "" then Truncated(beat.version) else version, started, now, beat.event == Leave)];
      applied := true;
    }

    method CountViewOf(k: PageKey, event: Event)
      modifies this`pages
      ensures pages == CountView(old(pages), k, event)
    {
      if event == View {
        PageRowFor(k);
        pages := pages[k := pages[k].(views := pages[k].views + 1)];
      }
    }

    /** A heartbeat; false when it was ignored. */
    method RecordBeat(beat: Beat, now: int) returns (applied: bool)
      requires Valid()
      modifies this
      ensures Book() == Record(old(Book()), beat, now)
      ensures applied <==> SubjectOf(beat).Some? && !Ignored(old(Book()), Who(SubjectOf(beat).value, beat.client), beat.event, now)
      ensures Valid()
    {
      hide Agree, Apply, Prune;
      if SubjectOf(beat).None? {
        return false;
      }
      applied := ApplyBeat(beat, SubjectOf(beat).value, now);
      CountOnlyAgrees(Book(), sincePrune + 1);
      CountOnlyAgrees(Book(), 0);
      sincePrune := sincePrune + 1;
      if sincePrune >= PRUNE_EVERY {
        sincePrune := 0;
        CleanUp(now);
      }
    }

    method CleanUp(now: int)
      requires Valid()
      modifies this`presence, this`daily, this`pages
      ensures Book() == Prune(old(Book()), now)
      ensures Valid()
    {
      hide Agree;
      PruneAgrees(Book(), now);
      var oldest := DayOf(now - RETAIN_DAYS * DAY);
      daily := map k | k in daily && k.day >= oldest :: daily[k];
      pages := map k | k in pages && k.day >= oldest :: pages[k];
      presence := map k | k in presence && presence[k].lastSeen >= now - PRESENCE_KEPT :: presence[k];
    }

    // ----- the overview -----

    /** One line for every day of the range, whether anything happened on it or not. */
    method DailyLines(r: Range) returns (lines: map<int, DayLine>)
      ensures lines.Keys == DaysOf(r)
      ensures forall d | d in lines :: DayLineIs(DailyWithin(daily, r), d, lines[d])
      ensures Total(DayColumn(lines)) == RangeSeconds(Book(), r)
    {
      hide DayLineIs, Total, GroupTotal, AddDay;
      var rows := DailyWithin(daily, r);
      var rest := rows.Keys;
      lines := map d | d in DaysOf(r) :: NO_DAY;
      ghost var counted: map<DayKey, DailyRow> := map[];
      forall d ensures DayLineIs(counted, d, NO_DAY) { EmptyDay(d); }
      while rest != {}
        invariant lines.Keys == DaysOf(r) && rest <= rows.Keys
        invariant counted == map k | k in rows && k !in rest :: rows[k]
        invariant forall d | d in lines :: DayLineIs(counted, d, lines[d])
        decreases |rest|
      {
        var k :| k in rest;
        assert Within(r, k.day);
        forall d | d in lines
          ensures DayLineIs(counted[k := rows[k]], d, if k.day == d then AddDay(lines[d], k, rows[k]) else lines[d])
        {
          AddDayIs(counted, d, lines[d], k, rows[k]);
        }
        lines := lines[k.day := AddDay(lines[k.day], k, rows[k])];
        counted := counted[k := rows[k]];
        rest := rest - {k};
      }
      assert counted == rows;
      DayColumnIs(rows, DaysOf(r), lines);
      DaysAddUp(Book(), r);
    }

    method PageLines(r: Range) returns (lines: map<Page, PageLine>)
      ensures lines.Keys == (set k | k in pages && Within(r, k.day) :: k.page)
      ensures forall p | p in lines :: PageLineIs(PagesWithin(pages, r), p, lines[p])
    {
      hide PageLineIs, AddPage;
      var rows := PagesWithin(pages, r);
      var rest := rows.Keys;
      lines := map[];
      ghost var counted: map<PageKey, PageRow> := map[];
      forall p ensures PageLineIs(counted, p, NO_PAGE) { EmptyPage(p); }
      while rest != {}
        invariant rest <= rows.Keys
        invariant counted == map k | k in rows && k !in rest :: rows[k]
        invariant lines.Keys == set k | k in counted :: k.page
        invariant forall p :: PageLineIs(counted, p, if p in lines then lines[p] else NO_PAGE)
        decreases |rest|
      {
        var k :| k in rest;
        ghost var was := lines;
        ghost var before := counted;
        lines := lines[k.page := AddPage(if k.page in lines then lines[k.page] else NO_PAGE, k.client, rows[k])];
        counted := counted[k := rows[k]];
        rest := rest - {k};
        forall p ensures PageLineIs(counted, p, if p in lines then lines[p] else NO_PAGE) {
          AddPageIs(before, p, if p in was then was[p] else NO_PAGE, k, rows[k]);
        }
      }
      assert counted == rows;
    }

    /** Time per account, over the rows that have one. */
    method AccountLines(r: Range) returns (lines: map<string, AccountLine>)
      ensures lines.Keys == Users(daily)
      ensures forall u | u in lines :: AccountLineIs(daily, r, Owner(daily), u, lines[u])
    {
      hide AccountLineIs, AddTime, Users;
      NoUsers();
      var rest := daily.Keys;
      lines := map[];
      ghost var counted: map<DayKey, DailyRow> := map[];
      ghost var owner := Owner(daily);
      forall u ensures AccountLineIs(counted, r, owner, u, NO_ACCOUNT) { EmptyAccount(r, owner, u); }
      while rest != {}
        invariant rest <= daily.Keys
        invariant counted == map k | k in daily && k !in rest :: daily[k]
        invariant lines.Keys == Users(counted)
        invariant forall u :: AccountLineIs(counted, r, owner, u, if u in lines then lines[u] else NO_ACCOUNT)
        decreases |rest|
      {
        var k :| k in rest;
        ghost var was := lines;
        ghost var before := counted;
        UsersWith(counted, k, daily[k]);
        if daily[k].user.Some? {
          var u := daily[k].user.value;
          lines := lines[u := AddTime(if u in lines then lines[u] else NO_ACCOUNT, r, k, daily[k].seconds)];
        }
        counted := counted[k := daily[k]];
        rest := rest - {k};
        forall u ensures AccountLineIs(counted, r, owner, u, if u in lines then lines[u] else NO_ACCOUNT) {
          AddTimeIs(before, r, owner, u, if u in was then was[u] else NO_ACCOUNT, k, daily[k]);
        }
      }
      assert counted == daily;
    }

    /** One client's seconds in the range. */
    method ClientSum(r: Range, c: Client) returns (seconds: nat)
      ensures seconds == ClientSeconds(Book(), r, c)
    {
      hide Total, GroupTotal;
      var rows := DailyWithin(daily, r);
      var rest := rows.Keys;
      seconds := 0;
      ghost var counted: map<DayKey, DailyRow> := map[];
      NobodyYet(c);
      while rest != {}
        invariant rest <= rows.Keys
        invariant counted == map k | k in rows && k !in rest :: rows[k]
        invariant seconds == GroupTotal(DailySeconds(counted), ClientIn, c)
        decreases |rest|
      {
        var k :| k in rest;
        SecondsWith(counted, k, rows[k]);
        GroupWrite(DailySeconds(counted), ClientIn, c, k, rows[k].seconds);
        if k.client == c { seconds := seconds + rows[k].seconds; }
        counted := counted[k := rows[k]];
        rest := rest - {k};
      }
      assert counted == rows;
    }

    /**
     The last `days` days including today. The daily lines, the two clients and the pages add up to the same
     number of seconds, each client's page column to that client, and accounts and visitors together to it too.
     */
    method LookBack(days: nat, now: int) returns (o: Overview)
      requires Valid()
      ensures o.range == Range(DayOf(now) - (days - 1), DayOf(now)) && |o.daily| == days
      ensures o.web + o.desktop == RangeSeconds(Book(), o.range)
      ensures Total(DayColumn(o.daily)) == o.web + o.desktop == Total(PageColumn(o.pages))
      ensures Total(WebColumn(o.pages)) == o.web && Total(DesktopColumn(o.pages)) == o.desktop
      ensures Total(AccountColumn(o.accounts)) + VisitorSeconds(Book(), o.range) == o.web + o.desktop
    {
      hide *;
      var r := Range(DayOf(now) - (days - 1), DayOf(now));
      ValidIs();
      var dayLines := DailyLines(r);
      var pageLines := PageLines(r);
      var accountLines := AccountLines(r);
      var web := ClientSum(r, Web);
      var desktop := ClientSum(r, Desktop);
      CountDays(r, days);
      ClientsAddUp(Book(), r);
      PagesOfLines(Book(), r, pageLines);
      AccountsOfLines(Book(), r, accountLines);
      o := Overview(r, web, desktop, dayLines, pageLines, accountLines);
    }
  }

  lemma NoCredit(l: Ledger, k: DayKey, user: Option<string>)
    ensures CreditDaily(l.daily, k, user, 0) == l.daily
    ensures forall p :: CreditPage(l.pages, p, 0) == l.pages
  {
  }

  lemma EmptyDay(d: int)
    ensures DayLineIs(map[], d, NO_DAY)
  {
    assert Group(DailySeconds(map[]), DayIn, d) == map[];
  }

  lemma EmptyPage(p: Page)
    ensures PageLineIs(map[], p, NO_PAGE)
  {
    assert Group(Views(map[]), PageIn, p) == map[];
    assert Group(PageSeconds(map[]), PageIn, p) == map[];
    assert OfClient(map[], Web) == map[] && OfClient(map[], Desktop) == map[];
  }

  lemma EmptyAccount(r: Range, owner: DayKey -> Option<string>, u: string)
    ensures AccountLineIs(map[], r, owner, u, NO_ACCOUNT)
  {
    assert DailyWithin(map[], r) == map[];
    assert forall c :: ClientWithin(map[], r, c) == map[];
    assert Group(DailySeconds(map[]), owner, Some(u)) == map[];
  }

  lemma DayColumnIs(rows: map<DayKey, DailyRow>, days: set<int>, lines: map<int, DayLine>)
    requires lines.Keys == days
    requires forall d | d in lines :: DayLineIs(rows, d, lines[d])
    ensures DayColumn(lines) == GroupTotals(DailySeconds(rows), DayIn, days)
  {
    hide GroupTotal;
  }

  lemma PageColumnsAre(rows: map<PageKey, PageRow>, lines: map<Page, PageLine>)
    requires forall p | p in lines :: PageLineIs(rows, p, lines[p])
    ensures PageColumn(lines) == GroupTotals(PageSeconds(rows), PageIn, lines.Keys)
    ensures WebColumn(lines) == GroupTotals(PageSeconds(OfClient(rows, Web)), PageIn, lines.Keys)
    ensures DesktopColumn(lines) == GroupTotals(PageSeconds(OfClient(rows, Desktop)), PageIn, lines.Keys)
  {
    hide GroupTotal, OfClient;
  }

  lemma NobodyYet(c: Client)
    ensures GroupTotal(DailySeconds(map[]), ClientIn, c) == 0
  {
    assert Group(DailySeconds(map[]), ClientIn, c) == map[];
  }

  lemma {:induction false} CountDays(r: Range, days: nat)
    requires r.end - r.start == days - 1
    ensures |DaysOf(r)| == days
    decreases days
  {
    if days == 0 {
      assert DaysOf(r) == {};
    } else {
      var less := Range(r.start, r.end - 1);
      CountDays(less, days - 1);
      assert forall d :: d in DaysOf(r) <==> d in DaysOf(less) || d == r.end by {
        assert forall d :: Within(r, d) <==> Within(less, d) || d == r.end;
      }
      assert DaysOf(r) == DaysOf(less) + {r.end};
    }
  }

  lemma PagesOfLines(l: Ledger, r: Range, lines: map<Page, PageLine>)
    requires Agree(l) && lines.Keys == (set k | k in l.pages && Within(r, k.day) :: k.page)
    requires forall p | p in lines :: PageLineIs(PagesWithin(l.pages, r), p, lines[p])
    ensures Total(PageColumn(lines)) == RangeSeconds(l, r)
    ensures Total(WebColumn(lines)) == ClientSeconds(l, r, Web) && Total(DesktopColumn(lines)) == ClientSeconds(l, r, Desktop)
  {
    hide Total, GroupTotals, Agree, PageLineIs, PageColumn, WebColumn, DesktopColumn, RangeSeconds, ClientSeconds;
    PageColumnsAre(PagesWithin(l.pages, r), lines);
    assert forall k | k in PagesWithin(l.pages, r) :: k in l.pages && Within(r, k.day);
    PagesAddUp(l, r, lines.Keys);
  }

  lemma AccountsOfLines(l: Ledger, r: Range, lines: map<string, AccountLine>)
    requires lines.Keys == Users(l.daily)
    requires forall u | u in lines :: AccountLineIs(l.daily, r, Owner(l.daily), u, lines[u])
    ensures Total(AccountColumn(lines)) + VisitorSeconds(l, r) == RangeSeconds(l, r)
  {
    hide Total, GroupTotal, VisitorSeconds, RangeSeconds, Owner;
    AccountsAddUp(l, r, lines.Keys);
    assert AccountColumn(lines) == AccountTotals(l, r, lines.Keys);
  }
}
