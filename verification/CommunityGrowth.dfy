/** The growth chart: how much was made each month, how much there was by then, and how many people were active. */
module CommunityGrowth {
  import opened Prelude
  import opened PythonOrder
  import opened CommunityMonths
  import opened CommunityStats

  /** A project or a lab session: whose, and the month it was made when that is known. */
  datatype Made = Made(owner: string, month: Option<Month>)

  datatype Line = Line(month: string, projects: nat, sessions: nat, projectsToDate: int, sessionsToDate: int, builders: Option<nat>)

  /** How many were made from one month to another. */
  ghost function Dated(rows: seq<Made>, from: int, to: int): nat {
    if rows == [] then 0 else
      var last := rows[|rows| - 1];
      Dated(rows[..|rows| - 1], from, to) + if last.month.Some? && from <= Ordinal(last.month.value) <= to then 1 else 0
  }

  ghost function Undated(rows: seq<Made>): nat {
    if rows == [] then 0 else Undated(rows[..|rows| - 1]) + if rows[|rows| - 1].month.None? then 1 else 0
  }

  ghost function ActiveIn(rows: seq<Made>, m: Month): set<string> {
    set r | r in rows && r.month == Some(m) :: r.owner
  }

  const LAST_MONTH: nat := 119_999

  lemma {:induction false} DatedSplits(rows: seq<Made>, from: int, mid: int, to: int)
    requires from <= mid + 1 && mid <= to
    ensures Dated(rows, from, to) == Dated(rows, from, mid) + Dated(rows, mid + 1, to)
  {
    if rows != [] { DatedSplits(rows[..|rows| - 1], from, mid, to); }
  }

  /** Every row is dated or not; dates are from year 0 to the end of 9999. */
  lemma {:induction false} DatedOrNot(rows: seq<Made>)
    ensures Dated(rows, 0, LAST_MONTH) + Undated(rows) == |rows|
  {
    if rows != [] { DatedOrNot(rows[..|rows| - 1]); }
  }

  lemma {:induction false} NoneWhen(rows: seq<Made>, from: int, to: int)
    ensures Dated(rows, from, to) == 0 <==> forall r | r in rows && r.month.Some? :: !(from <= Ordinal(r.month.value) <= to)
    ensures Undated(rows) == 0 <==> forall r | r in rows :: r.month.Some?
  {
    if rows != [] {
      var front, last := rows[..|rows| - 1], rows[|rows| - 1];
      assert rows == front + [last];
      NoneWhen(front, from, to);
      assert forall r :: r in rows <==> r in front || r == last;
    }
  }

  /** One month's count and people, added to those of the rows before. */
  ghost predicate Tallied(counts: map<string, nat>, people: map<string, set<string>>, rows: seq<Made>, before: map<string, set<string>>, m: Month) {
    && Counted(counts, Label(m)) == Dated(rows, Ordinal(m), Ordinal(m))
    && PeopleAt(people, Label(m)) == PeopleAt(before, Label(m)) + ActiveIn(rows, m)
  }

  lemma NothingMade(m: Month)
    ensures Dated([], Ordinal(m), Ordinal(m)) == 0 && ActiveIn([], m) == {}
  {
  }

  /** Counts rows by month, and who made them, for months from the first of the chart on. */
  method CountByMonth(rows: seq<Made>, first: Month, before: map<string, set<string>>)
    returns (counts: map<string, nat>, people: map<string, set<string>>)
    ensures forall m: Month | Ordinal(m) >= Ordinal(first) :: Tallied(counts, people, rows, before, m)
  {
    hide Label, CompareText, Ordinal, Dated, ActiveIn;
    counts, people := map[], before;
    forall m: Month ensures Tallied(counts, people, [], before, m) { NothingMade(m); }
    for i := 0 to |rows|
      invariant forall m: Month | Ordinal(m) >= Ordinal(first) :: Tallied(counts, people, rows[..i], before, m)
    {
      if rows[i].month.Some? {
        var made := rows[i].month.value;
        var key := Label(made);
        LabelOrder(made, first);
        if CompareText(key, Label(first)) != Less {
          counts := counts[key := Counted(counts, key) + 1];
          people := people[key := PeopleAt(people, key) + {rows[i].owner}];
        }
      }
      forall m: Month | Ordinal(m) >= Ordinal(first) ensures Tallied(counts, people, rows[..i + 1], before, m) {
        OneMoreMade(rows, i, m);
        if rows[i].month.Some? { LabelOrder(rows[i].month.value, m); }
      }
    }
    assert rows[..|rows|] == rows;
  }

  lemma OneMoreMade(rows: seq<Made>, i: nat, m: Month)
    requires i < |rows|
    ensures Dated(rows[..i + 1], Ordinal(m), Ordinal(m)) == Dated(rows[..i], Ordinal(m), Ordinal(m)) + if rows[i].month == Some(m) then 1 else 0
    ensures ActiveIn(rows[..i + 1], m) == ActiveIn(rows[..i], m) + if rows[i].month == Some(m) then {rows[i].owner} else {}
  {
    assert rows[..i + 1][..i] == rows[..i];
    assert rows[..i + 1] == rows[..i] + [rows[i]];
  }

  /** The sum the running total starts below: everything made in the chart's months. */
  method SumOver(labels: seq<string>, counts: map<string, nat>, rows: seq<Made>, now: Month) returns (sum: nat)
    requires WINDOW <= Ordinal(now) + 1 && LabelsAre(labels, now)
    requires CountsAre(counts, rows, now)
    ensures sum == Dated(rows, First(now), Ordinal(now))
  {
    sum := 0;
    NoRange(rows, First(now));
    for i := 0 to |labels|
      invariant sum == Dated(rows, First(now), First(now) + i - 1)
    {
      hide Label, Dated;
      DatedSplits(rows, First(now), First(now) + i - 1, First(now) + i);
      sum := sum + Counted(counts, labels[i]);
    }
  }

  lemma {:induction false} NoRange(rows: seq<Made>, from: int)
    ensures Dated(rows, from, from - 1) == 0
  {
    if rows != [] { NoRange(rows[..|rows| - 1], from); }
  }

  /** The first month of the chart. */
  function First(now: Month): int { Ordinal(now) + 1 - WINDOW }

  predicate LabelsAre(labels: seq<string>, now: Month)
    requires WINDOW <= Ordinal(now) + 1
  {
    |labels| == WINDOW && forall i | 0 <= i < WINDOW :: labels[i] == Label(MonthAt(First(now) + i))
  }

  ghost predicate CountsAre(counts: map<string, nat>, rows: seq<Made>, now: Month)
    requires WINDOW <= Ordinal(now) + 1
  {
    forall i | First(now) <= i <= Ordinal(now) :: Counted(counts, Label(MonthAt(i))) == Dated(rows, i, i)
  }

  /** What a line says of the i-th month: what was made in it, and all that was not made in a later month of the chart. */
  ghost predicate LineIs(line: Line, projects: seq<Made>, sessions: seq<Made>, now: Month, i: nat)
    requires WINDOW <= Ordinal(now) + 1 && i < WINDOW
  {
    var m := MonthAt(First(now) + i);
    var active := ActiveIn(projects, m) + ActiveIn(sessions, m);
    && line.month == Label(m)
    && line.projects == Dated(projects, Ordinal(m), Ordinal(m))
    && line.sessions == Dated(sessions, Ordinal(m), Ordinal(m))
    && line.projectsToDate == |projects| - Dated(projects, Ordinal(m) + 1, Ordinal(now))
    && line.sessionsToDate == |sessions| - Dated(sessions, Ordinal(m) + 1, Ordinal(now))
    && line.builders == if |active| >= MIN_GROUP then Some(|active|) else None
  }

  /** Projects and sessions so far, month by month over the chart. */
  method Monthly(projects: seq<Made>, sessions: seq<Made>, now: Month) returns (lines: seq<Line>)
    requires WINDOW <= Ordinal(now) + 1
    ensures |lines| == WINDOW && forall i | 0 <= i < WINDOW :: LineIs(lines[i], projects, sessions, now, i)
  {
    hide Label, Dated, LineIs, Ordinal, ActiveIn, First, Months, MonthAt, PeopleAt, Counted, LabelsAre, CountsAre, Tallied;
    MonthNumbers(now);
    var first := MonthAt(First(now));
    var months := LastMonths(now, WINDOW);
    assert LabelsAre(months, now) by { AreLabels(months, now); }
    var projectCounts, some := CountByMonth(projects, first, map[]);
    var sessionCounts, people := CountByMonth(sessions, first, some);
    AreCounts(projectCounts, some, projects, map[], now);
    AreCounts(sessionCounts, people, sessions, some, now);
    var inChart := SumOver(months, projectCounts, projects, now);
    var projectsSoFar: int := |projects| - inChart;
    inChart := SumOver(months, sessionCounts, sessions, now);
    var sessionsSoFar: int := |sessions| - inChart;
    lines := [];
    for i := 0 to WINDOW
      invariant |lines| == i && forall k | 0 <= k < i :: LineIs(lines[k], projects, sessions, now, k)
      invariant projectsSoFar == |projects| - Dated(projects, First(now) + i, Ordinal(now))
      invariant sessionsSoFar == |sessions| - Dated(sessions, First(now) + i, Ordinal(now))
    {
      MonthFacts(months, projectCounts, projects, now, i);
      MonthFacts(months, sessionCounts, sessions, now, i);
      ActiveThen(months, some, people, projects, sessions, now, i);
      projectsSoFar := projectsSoFar + Counted(projectCounts, months[i]);
      sessionsSoFar := sessionsSoFar + Counted(sessionCounts, months[i]);
      var active := |PeopleAt(people, months[i])|;
      var line := Line(months[i], Counted(projectCounts, months[i]), Counted(sessionCounts, months[i]), projectsSoFar, sessionsSoFar,
        if active >= MIN_GROUP then Some(active) else None);
      IsLine(line, projects, sessions, now, i);
      lines := lines + [line];
    }
  }

  lemma AreLabels(labels: seq<string>, now: Month)
    requires WINDOW <= Ordinal(now) + 1 && |labels| == WINDOW
    requires forall i | 0 <= i < WINDOW :: labels[i] == Label(Months(now, WINDOW)[i])
    ensures LabelsAre(labels, now)
  {
    hide Label;
    MonthNumbers(now);
  }

  lemma AreCounts(counts: map<string, nat>, people: map<string, set<string>>, rows: seq<Made>, before: map<string, set<string>>, now: Month)
    requires WINDOW <= Ordinal(now) + 1
    requires forall m: Month | Ordinal(m) >= Ordinal(MonthAt(First(now))) :: Tallied(counts, people, rows, before, m)
    ensures CountsAre(counts, rows, now)
    ensures forall i | First(now) <= i <= Ordinal(now) ::
      PeopleAt(people, Label(MonthAt(i))) == PeopleAt(before, Label(MonthAt(i))) + ActiveIn(rows, MonthAt(i))
  {
    hide Label, Dated, ActiveIn, MonthAt, Ordinal;
    MonthNumbers(now);
    forall i | First(now) <= i <= Ordinal(now) ensures Tallied(counts, people, rows, before, MonthAt(i)) && Ordinal(MonthAt(i)) == i { }
  }

  lemma MonthFacts(labels: seq<string>, counts: map<string, nat>, rows: seq<Made>, now: Month, i: nat)
    requires WINDOW <= Ordinal(now) + 1 && i < WINDOW && LabelsAre(labels, now) && CountsAre(counts, rows, now)
    ensures var n := First(now) + i;
      && labels[i] == Label(MonthAt(n)) && Counted(counts, labels[i]) == Dated(rows, n, n)
      && Dated(rows, n, Ordinal(now)) == Dated(rows, n, n) + Dated(rows, n + 1, Ordinal(now))
  {
    hide Label, Dated;
    DatedSplits(rows, First(now) + i, First(now) + i, Ordinal(now));
  }

  lemma ActiveThen(labels: seq<string>, some: map<string, set<string>>, people: map<string, set<string>>, projects: seq<Made>, sessions: seq<Made>, now: Month, i: nat)
    requires WINDOW <= Ordinal(now) + 1 && i < WINDOW && LabelsAre(labels, now)
    requires forall k | First(now) <= k <= Ordinal(now) :: PeopleAt(some, Label(MonthAt(k))) == PeopleAt(map[], Label(MonthAt(k))) + ActiveIn(projects, MonthAt(k))
    requires forall k | First(now) <= k <= Ordinal(now) :: PeopleAt(people, Label(MonthAt(k))) == PeopleAt(some, Label(MonthAt(k))) + ActiveIn(sessions, MonthAt(k))
    ensures var m := MonthAt(First(now) + i); PeopleAt(people, labels[i]) == ActiveIn(projects, m) + ActiveIn(sessions, m)
  {
    hide Label, ActiveIn;
  }

  lemma MonthNumbers(now: Month)
    requires WINDOW <= Ordinal(now) + 1
    ensures 0 <= First(now) <= Ordinal(now) <= LAST_MONTH
    ensures forall i | First(now) <= i <= Ordinal(now) :: Ordinal(MonthAt(i)) == i
    ensures forall i | 0 <= i < WINDOW :: Months(now, WINDOW)[i] == MonthAt(First(now) + i)
  {
  }

  lemma IsLine(line: Line, projects: seq<Made>, sessions: seq<Made>, now: Month, i: nat)
    requires WINDOW <= Ordinal(now) + 1 && i < WINDOW
    requires var n := First(now) + i; var m := MonthAt(n); var active := ActiveIn(projects, m) + ActiveIn(sessions, m);
      && line.month == Label(m)
      && line.projects == Dated(projects, n, n) && line.sessions == Dated(sessions, n, n)
      && line.projectsToDate == |projects| - Dated(projects, n + 1, Ordinal(now))
      && line.sessionsToDate == |sessions| - Dated(sessions, n + 1, Ordinal(now))
      && line.builders == if |active| >= MIN_GROUP then Some(|active|) else None
    ensures LineIs(line, projects, sessions, now, i)
  {
    hide Label, Dated, ActiveIn;
    MonthNumbers(now);
  }

  // ----- the running totals -----

  /** They start at or above zero, rise by what each month adds, never fall, and end at the overall count. */
  lemma {:induction false} TotalsRise(rows: seq<Made>, now: Month, i: nat)
    requires WINDOW <= Ordinal(now) + 1 && i < WINDOW
    ensures var n := First(now) + i; var toDate := |rows| - Dated(rows, n + 1, Ordinal(now));
      && toDate == |rows| - Dated(rows, n, Ordinal(now)) + Dated(rows, n, n)
      && 0 <= toDate - Dated(rows, n, n) <= toDate <= |rows|
      && (i == WINDOW - 1 ==> toDate == |rows|)
  {
    hide Dated, Ordinal;
    MonthNumbers(now);
    var n := First(now) + i;
    DatedSplits(rows, n, n, Ordinal(now));
    DatedOrNot(rows);
    DatedSplits(rows, 0, n - 1, LAST_MONTH);
    DatedSplits(rows, n, Ordinal(now), LAST_MONTH);
    NoRange(rows, n + 1);
  }

  /**
   The height the growth line starts from holds, besides all that was made before the chart, everything dated
   after it, and any row without a month, of which the source's tables hold none. It is the right height if and
   only if there is nothing of the sort.
   */
  lemma {:induction false} StartsAtTheRightHeight(rows: seq<Made>, now: Month)
    requires WINDOW <= Ordinal(now) + 1
    ensures var start := |rows| - Dated(rows, First(now), Ordinal(now)); var made := Dated(rows, 0, First(now) - 1);
      && start == made + Undated(rows) + Dated(rows, Ordinal(now) + 1, LAST_MONTH)
      && (start == made <==> forall r | r in rows :: r.month.Some? && Ordinal(r.month.value) <= Ordinal(now))
  {
    hide Dated, Undated, Ordinal;
    MonthNumbers(now);
    DatedOrNot(rows);
    DatedSplits(rows, 0, First(now) - 1, LAST_MONTH);
    DatedSplits(rows, First(now), Ordinal(now), LAST_MONTH);
    NoneWhen(rows, Ordinal(now) + 1, LAST_MONTH);
    forall r | r in rows && r.month.Some? ensures Ordinal(r.month.value) <= LAST_MONTH { MonthNumber(r.month.value); }
  }

  lemma MonthNumber(m: Month)
    ensures Ordinal(m) <= LAST_MONTH
  {
  }

  /** One session dated by its client a month ahead starts the line at 1, though nothing was made before the chart. */
  lemma FutureDateRaisesTheStart(now: Month, ahead: Month)
    requires WINDOW <= Ordinal(now) + 1 && Ordinal(ahead) == Ordinal(now) + 1
    ensures var rows := [Made("ada", Some(ahead))];
      && |rows| - Dated(rows, First(now), Ordinal(now)) == 1
      && Dated(rows, 0, First(now) - 1) == 0
  {
    var rows := [Made("ada", Some(ahead))];
    assert rows[..0] == [];
    assert Dated(rows, First(now), Ordinal(now)) == 0 && Dated(rows, 0, First(now) - 1) == 0;
  }
}
