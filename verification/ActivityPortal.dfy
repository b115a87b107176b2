/** What the admin portal adds up from the two ledgers for a range of days, and why its numbers are the same number. */
module ActivityPortal {
  import opened Prelude
  import opened Sums
  import opened Activity

  /** One line per day: people signed in, visitors, seconds. */
  datatype DayLine = DayLine(accounts: set<Subject>, visitors: set<Subject>, seconds: nat)
  datatype PageLine = PageLine(views: nat, seconds: nat, web: nat, desktop: nat)
  datatype AccountLine = AccountLine(all: nat, inRange: nat, web: nat, desktop: nat, days: set<int>)

  const NO_DAY := DayLine({}, {}, 0)
  const NO_PAGE := PageLine(0, 0, 0, 0)
  const NO_ACCOUNT := AccountLine(0, 0, 0, 0, {})

  datatype Range = Range(start: int, end: int)

  predicate Within(r: Range, day: int) { r.start <= day <= r.end }

  function DayIn(k: DayKey): int { k.day }
  function PageIn(k: PageKey): Page { k.page }
  function ClientIn(k: DayKey): Client { k.client }

  function DailyWithin(daily: map<DayKey, DailyRow>, r: Range): map<DayKey, DailyRow> {
    map k | k in daily && Within(r, k.day) :: daily[k]
  }

  function PagesWithin(pages: map<PageKey, PageRow>, r: Range): map<PageKey, PageRow> {
    map k | k in pages && Within(r, k.day) :: pages[k]
  }

  function ClientWithin(daily: map<DayKey, DailyRow>, r: Range, c: Client): map<DayKey, DailyRow> {
    map k | k in daily && Within(r, k.day) && k.client == c :: daily[k]
  }

  ghost function Views(pages: map<PageKey, PageRow>): map<PageKey, nat> { map k | k in pages :: pages[k].views }

  function OfClient(pages: map<PageKey, PageRow>, c: Client): map<PageKey, PageRow> {
    map k | k in pages && k.client == c :: pages[k]
  }

  /** Whose row it is: an account's, or nobody's. */
  function Owner(daily: map<DayKey, DailyRow>): DayKey -> Option<string> {
    k => if k in daily then daily[k].user else None
  }

  // ----- one row more, in each table -----

  function AddDay(line: DayLine, k: DayKey, row: DailyRow): DayLine {
    DayLine(
      if Given(row.user) then line.accounts + {k.subject} else line.accounts,
      if Given(row.user) then line.visitors else line.visitors + {k.subject},
      line.seconds + row.seconds)
  }

  ghost predicate DayLineIs(rows: map<DayKey, DailyRow>, day: int, line: DayLine) {
    && line.seconds == GroupTotal(DailySeconds(rows), DayIn, day)
    && line.accounts == (set k | k in rows && k.day == day && Given(rows[k].user) :: k.subject)
    && line.visitors == (set k | k in rows && k.day == day && !Given(rows[k].user) :: k.subject)
  }

  lemma SecondsWith(rows: map<DayKey, DailyRow>, k: DayKey, row: DailyRow)
    ensures DailySeconds(rows[k := row]) == DailySeconds(rows)[k := row.seconds]
  {
  }

  lemma AddDayIs(rows: map<DayKey, DailyRow>, day: int, line: DayLine, k: DayKey, row: DailyRow)
    requires k !in rows && DayLineIs(rows, day, line)
    ensures DayLineIs(rows[k := row], day, if k.day == day then AddDay(line, k, row) else line)
  {
    hide GroupTotal;
    SecondsWith(rows, k, row);
    GroupWrite(DailySeconds(rows), DayIn, day, k, row.seconds);
  }

  function AddPage(line: PageLine, client: Client, row: PageRow): PageLine {
    PageLine(line.views + row.views, line.seconds + row.seconds,
      line.web + if client == Web then row.seconds else 0,
      line.desktop + if client == Desktop then row.seconds else 0)
  }

  ghost predicate PageLineIs(rows: map<PageKey, PageRow>, page: Page, line: PageLine) {
    && line.views == GroupTotal(Views(rows), PageIn, page)
    && line.seconds == GroupTotal(PageSeconds(rows), PageIn, page)
    && line.web == GroupTotal(PageSeconds(OfClient(rows, Web)), PageIn, page)
    && line.desktop == GroupTotal(PageSeconds(OfClient(rows, Desktop)), PageIn, page)
  }

  lemma PagesWith(rows: map<PageKey, PageRow>, k: PageKey, row: PageRow, c: Client)
    ensures Views(rows[k := row]) == Views(rows)[k := row.views]
    ensures PageSeconds(rows[k := row]) == PageSeconds(rows)[k := row.seconds]
    ensures OfClient(rows[k := row], c) == if k.client == c then OfClient(rows, c)[k := row] else OfClient(rows, c)
  {
  }

  lemma ClientColumn(rows: map<PageKey, PageRow>, page: Page, k: PageKey, row: PageRow, c: Client)
    requires k !in rows
    ensures GroupTotal(PageSeconds(OfClient(rows[k := row], c)), PageIn, page)
      == GroupTotal(PageSeconds(OfClient(rows, c)), PageIn, page) + if k.client == c && k.page == page then row.seconds else 0
  {
    hide GroupTotal;
    PagesWith(rows, k, row, c);
    PagesWith(OfClient(rows, c), k, row, c);
    GroupWrite(PageSeconds(OfClient(rows, c)), PageIn, page, k, row.seconds);
  }

  lemma AddPageIs(rows: map<PageKey, PageRow>, page: Page, line: PageLine, k: PageKey, row: PageRow)
    requires k !in rows && PageLineIs(rows, page, line)
    ensures PageLineIs(rows[k := row], page, if k.page == page then AddPage(line, k.client, row) else line)
  {
    hide GroupTotal, OfClient;
    PagesWith(rows, k, row, Web);
    GroupWrite(Views(rows), PageIn, page, k, row.views);
    GroupWrite(PageSeconds(rows), PageIn, page, k, row.seconds);
    ClientColumn(rows, page, k, row, Web);
    ClientColumn(rows, page, k, row, Desktop);
  }

  // ----- the portal's numbers are one number -----

  function DaysOf(r: Range): set<int> { set d | r.start <= d <= r.end && Within(r, d) }

  ghost function RangeSeconds(l: Ledger, r: Range): nat { Total(DailySeconds(DailyWithin(l.daily, r))) }
  ghost function ClientSeconds(l: Ledger, r: Range, c: Client): nat { GroupTotal(DailySeconds(DailyWithin(l.daily, r)), ClientIn, c) }

  /** The daily lines add up to the range. */
  lemma DaysAddUp(l: Ledger, r: Range)
    ensures Total(GroupTotals(DailySeconds(DailyWithin(l.daily, r)), DayIn, DaysOf(r))) == RangeSeconds(l, r)
  {
    hide Total, GroupTotals;
    TotalByGroup(DailySeconds(DailyWithin(l.daily, r)), DayIn, DaysOf(r));
  }

  lemma TwoTotals(m: map<Client, nat>)
    requires m.Keys == {Web, Desktop}
    ensures Total(m) == m[Web] + m[Desktop]
  {
    TotalRemove(m, Web);
    TotalRemove(m - {Web}, Desktop);
    assert m - {Web} - {Desktop} == map[];
  }

  /** The two clients add up to the range. */
  lemma ClientsAddUp(l: Ledger, r: Range)
    ensures ClientSeconds(l, r, Web) + ClientSeconds(l, r, Desktop) == RangeSeconds(l, r)
  {
    hide Total, GroupTotal;
    var m := DailySeconds(DailyWithin(l.daily, r));
    forall k | k in m ensures ClientIn(k) in {Web, Desktop} { assert ClientIn(k).Web? || ClientIn(k).Desktop?; }
    TotalByGroup(m, ClientIn, {Web, Desktop});
    TwoTotals(GroupTotals(m, ClientIn, {Web, Desktop}));
  }

  /** Seconds over pages are seconds over people, for any choice of days and clients. */
  lemma PagesMatchPeople(l: Ledger, keep: Slot -> bool)
    requires Agree(l)
    ensures Total(PartBy(PageSeconds(l.pages), PageSlot, keep)) == Total(PartBy(DailySeconds(l.daily), DaySlot, keep))
  {
    hide Total, GroupTotal;
    SameByGroup(DailySeconds(l.daily), PageSeconds(l.pages), DaySlot, PageSlot, keep);
  }

  /** The pages of a range add up to the range, and each client's column to that client's seconds. */
  lemma PagesAddUp(l: Ledger, r: Range, pages: set<Page>)
    requires Agree(l)
    requires forall k | k in PagesWithin(l.pages, r) :: k.page in pages
    ensures Total(GroupTotals(PageSeconds(PagesWithin(l.pages, r)), PageIn, pages)) == RangeSeconds(l, r)
    ensures forall c :: Total(GroupTotals(PageSeconds(OfClient(PagesWithin(l.pages, r), c)), PageIn, pages)) == ClientSeconds(l, r, c)
  {
    hide Total, GroupTotals, Agree;
    var within := PagesWithin(l.pages, r);
    TotalByGroup(PageSeconds(within), PageIn, pages);
    var inRange := (slot: Slot) => Within(r, slot.day);
    PagesMatchPeople(l, inRange);
    assert PartBy(PageSeconds(l.pages), PageSlot, inRange) == PageSeconds(within);
    assert PartBy(DailySeconds(l.daily), DaySlot, inRange) == DailySeconds(DailyWithin(l.daily, r));
    forall c ensures Total(GroupTotals(PageSeconds(OfClient(within, c)), PageIn, pages)) == ClientSeconds(l, r, c) {
      ColumnAddsUp(l, r, pages, c);
    }
  }

  lemma ColumnIsPart(l: Ledger, r: Range, c: Client, mine: Slot -> bool)
    requires forall slot :: mine(slot) == (Within(r, slot.day) && slot.client == c)
    ensures PartBy(PageSeconds(l.pages), PageSlot, mine) == PageSeconds(OfClient(PagesWithin(l.pages, r), c))
    ensures PartBy(DailySeconds(l.daily), DaySlot, mine) == Group(DailySeconds(DailyWithin(l.daily, r)), ClientIn, c)
  {
  }

  lemma ColumnAddsUp(l: Ledger, r: Range, pages: set<Page>, c: Client)
    requires Agree(l)
    requires forall k | k in PagesWithin(l.pages, r) :: k.page in pages
    ensures Total(GroupTotals(PageSeconds(OfClient(PagesWithin(l.pages, r), c)), PageIn, pages)) == ClientSeconds(l, r, c)
  {
    hide Total, GroupTotals, Agree, PartBy, Group;
    TotalByGroup(PageSeconds(OfClient(PagesWithin(l.pages, r), c)), PageIn, pages);
    var mine := (slot: Slot) => Within(r, slot.day) && slot.client == c;
    PagesMatchPeople(l, mine);
    ColumnIsPart(l, r, c, mine);
  }

  // ----- time per account -----

  /** One row more for an account: its client's column, its days and its range only when the day is in the range. */
  function AddTime(line: AccountLine, r: Range, k: DayKey, seconds: nat): AccountLine {
    if !Within(r, k.day) then line.(all := line.all + seconds) else
      AccountLine(line.all + seconds, line.inRange + seconds,
        line.web + if k.client == Web then seconds else 0,
        line.desktop + if k.client == Desktop then seconds else 0,
        line.days + {k.day})
  }

  ghost predicate AccountLineIs(rows: map<DayKey, DailyRow>, r: Range, owner: DayKey -> Option<string>, user: string, line: AccountLine) {
    && line.all == GroupTotal(DailySeconds(rows), owner, Some(user))
    && line.inRange == GroupTotal(DailySeconds(DailyWithin(rows, r)), owner, Some(user))
    && line.web == GroupTotal(DailySeconds(ClientWithin(rows, r, Web)), owner, Some(user))
    && line.desktop == GroupTotal(DailySeconds(ClientWithin(rows, r, Desktop)), owner, Some(user))
    && line.web + line.desktop == line.inRange
    && line.days == (set k | k in rows && Within(r, k.day) && owner(k) == Some(user) :: k.day)
  }

  lemma WithinWith(rows: map<DayKey, DailyRow>, r: Range, k: DayKey, row: DailyRow)
    requires k !in rows
    ensures k !in DailyWithin(rows, r)
    ensures DailyWithin(rows[k := row], r) == if Within(r, k.day) then DailyWithin(rows, r)[k := row] else DailyWithin(rows, r)
    ensures forall c :: k !in ClientWithin(rows, r, c)
    ensures forall c ::
      (ClientWithin(rows[k := row], r, c) == if Within(r, k.day) && k.client == c then ClientWithin(rows, r, c)[k := row] else ClientWithin(rows, r, c))
  {
  }

  lemma AddTimeIs(rows: map<DayKey, DailyRow>, r: Range, owner: DayKey -> Option<string>, user: string, line: AccountLine, k: DayKey, row: DailyRow)
    requires k !in rows && AccountLineIs(rows, r, owner, user, line)
    ensures AccountLineIs(rows[k := row], r, owner, user, if owner(k) == Some(user) then AddTime(line, r, k, row.seconds) else line)
  {
    hide GroupTotal, DailyWithin, ClientWithin;
    WithinWith(rows, r, k, row);
    SecondsOfOwner(rows, owner, user, k, row);
    SecondsOfOwner(DailyWithin(rows, r), owner, user, k, row);
    SecondsOfOwner(ClientWithin(rows, r, Web), owner, user, k, row);
    SecondsOfOwner(ClientWithin(rows, r, Desktop), owner, user, k, row);
  }

  lemma SecondsOfOwner(rows: map<DayKey, DailyRow>, owner: DayKey -> Option<string>, user: string, k: DayKey, row: DailyRow)
    requires k !in rows
    ensures GroupTotal(DailySeconds(rows[k := row]), owner, Some(user))
      == GroupTotal(DailySeconds(rows), owner, Some(user)) + if owner(k) == Some(user) then row.seconds else 0
  {
    hide GroupTotal;
    SecondsWith(rows, k, row);
    GroupWrite(DailySeconds(rows), owner, Some(user), k, row.seconds);
  }

  /** Time in the range that belongs to an account, by account. */
  ghost function AccountTotals(l: Ledger, r: Range, users: set<string>): map<string, nat> {
    map u | u in users :: GroupTotal(DailySeconds(DailyWithin(l.daily, r)), Owner(l.daily), Some(u))
  }

  ghost function VisitorSeconds(l: Ledger, r: Range): nat {
    GroupTotal(DailySeconds(DailyWithin(l.daily, r)), Owner(l.daily), None)
  }

  function UserText(daily: map<DayKey, DailyRow>): DayKey -> string {
    k => if k in daily && daily[k].user.Some? then daily[k].user.value else ""
  }

  /** What accounts spent in the range and what visitors spent in it add up to the range. */
  lemma AccountsAddUp(l: Ledger, r: Range, users: set<string>)
    requires forall k | k in l.daily && l.daily[k].user.Some? :: l.daily[k].user.value in users
    ensures Total(AccountTotals(l, r, users)) + VisitorSeconds(l, r) == RangeSeconds(l, r)
  {
    hide Total;
    var m, owner := DailySeconds(DailyWithin(l.daily, r)), Owner(l.daily);
    var owned := PartBy(m, owner, (o: Option<string>) => o.Some?);
    TotalSplit(m, owned, Group(m, owner, None));
    TotalByGroup(owned, UserText(l.daily), users);
    forall u | u in users ensures Group(owned, UserText(l.daily), u) == Group(m, owner, Some(u)) { }
    assert AccountTotals(l, r, users) == GroupTotals(owned, UserText(l.daily), users);
  }
}
