/** Community statistics: grouped counts that hide small groups, and the growth chart's running totals. */
module CommunityStats {
  import opened Prelude
  import opened Sums
  import opened PythonOrder
  import opened CommunityMonths

  const MIN_GROUP: nat := 10

  // ----- grouping -----

  datatype Row = Row(key: string, count: nat, people: nat)
  datatype Rest = Rest(count: nat, people: nat)

  /** A use of something by someone: a project in a category, a part in a session. */
  datatype Use = Use(owner: string, key: string)

  /** Biggest first; ties in the keys' own order. */
  predicate Ranks(uses: map<string, nat>, a: string, b: string) {
    Counted(uses, a) > Counted(uses, b) || (Counted(uses, a) == Counted(uses, b) && CompareText(a, b) != Greater)
  }

  /** A counter is 0 for what it has not seen. */
  function Counted(uses: map<string, nat>, key: string): nat { if key in uses then uses[key] else 0 }

  predicate Ranked(uses: map<string, nat>, keys: seq<string>) {
    forall a, b | 0 <= a < b < |keys| :: keys[a] != keys[b] && Ranks(uses, keys[a], keys[b])
  }

  lemma RanksTotal(uses: map<string, nat>, a: string, b: string, c: string)
    ensures Ranks(uses, a, b) || Ranks(uses, b, a)
    ensures Ranks(uses, a, b) && Ranks(uses, b, c) ==> Ranks(uses, a, c)
    ensures Ranks(uses, a, b) && Ranks(uses, b, a) ==> a == b
  {
    hide CompareText;
    TextFlip(a, b);
    TextOrder(a, b);
    TextOrder(b, c);
    if CompareText(a, b) == Less && CompareText(b, c) == Less { TextTransitive(a, b, c); }
  }

  lemma RanksIs(uses: map<string, nat>, a: string, b: string)
    requires Ranks(uses, a, b) && a != b
    ensures Counted(uses, a) > Counted(uses, b) || (Counted(uses, a) == Counted(uses, b) && CompareText(a, b) == Less)
  {
    hide CompareText;
    TextOrder(a, b);
  }

  /** Inserting a key where the first one it ranks before is. */
  lemma InsertRanked(uses: map<string, nat>, keys: seq<string>, key: string, at: nat)
    requires Ranked(uses, keys) && key !in keys && at <= |keys|
    requires forall a | 0 <= a < at :: !Ranks(uses, key, keys[a])
    requires at < |keys| ==> Ranks(uses, key, keys[at])
    ensures Ranked(uses, keys[..at] + [key] + keys[at..])
  {
    hide Ranks;
    var placed := keys[..at] + [key] + keys[at..];
    forall a | 0 <= a < |keys| ensures if a < at then Ranks(uses, keys[a], key) else Ranks(uses, key, keys[a]) {
      RanksTotal(uses, key, keys[a], key);
      if a > at { RanksTotal(uses, key, keys[at], keys[a]); }
    }
    assert forall a | 0 <= a < |placed| :: placed[a] == if a < at then keys[a] else if a == at then key else keys[a - 1];
  }

  ghost function Sum(rows: seq<Row>): nat {
    if rows == [] then 0 else Sum(rows[..|rows| - 1]) + rows[|rows| - 1].count
  }

  function Keys(rows: seq<Row>): set<string> { set r | r in rows :: r.key }

  /** The uses of some keys. */
  ghost function UsesOf(uses: map<string, nat>, keys: set<string>): map<string, nat> { map k | k in keys :: Counted(uses, k) }

  ghost function PeopleOf(people: map<string, set<string>>, keys: set<string>): set<string> {
    set k, p | k in keys && k in people && p in people[k] :: p
  }

  predicate Qualifies(people: map<string, set<string>>, key: string) { key in people && |people[key]| >= MIN_GROUP }

  /** Each row is a key at least ten people account for, with its numbers. */
  predicate RowsTrue(people: map<string, set<string>>, uses: map<string, nat>, rows: seq<Row>) {
    forall r | r in rows :: Qualifies(people, r.key) && r.count == Counted(uses, r.key) && r.people == |people[r.key]|
  }

  /** Rows are ranked and within the limit; a qualifying key is left out only by a full list of keys that outrank it. */
  predicate RowsGreatest(people: map<string, set<string>>, uses: map<string, nat>, limit: Option<nat>, rows: seq<Row>) {
    && (forall a, b | 0 <= a < b < |rows| :: rows[a].key != rows[b].key && Ranks(uses, rows[a].key, rows[b].key))
    && (limit.Some? ==> |rows| <= limit.value)
    && (forall k | k in people.Keys - Keys(rows) && Qualifies(people, k) ::
          limit.Some? && |rows| == limit.value && forall r | r in rows :: Ranks(uses, r.key, k))
  }

  /** What is not listed is summed into one row, so that no use is lost. */
  ghost predicate Conserved(people: map<string, set<string>>, uses: map<string, nat>, rows: seq<Row>, other: Option<Rest>) {
    var unlisted := people.Keys - Keys(rows);
    && (other.None? <==> Total(UsesOf(uses, unlisted)) == 0)
    && (other.Some? ==> other.value == Rest(Total(UsesOf(uses, unlisted)), |PeopleOf(people, unlisted)|))
    && Sum(rows) + (if other.Some? then other.value.count else 0) == Total(UsesOf(uses, people.Keys))
  }

  /** The keys that qualify, ranked. */
  method ShownKeys(people: map<string, set<string>>, uses: map<string, nat>) returns (shown: seq<string>)
    ensures Ranked(uses, shown)
    ensures forall k :: k in shown <==> Qualifies(people, k)
  {
    hide Ranks;
    shown := [];
    var rest := people.Keys;
    while rest != {}
      invariant rest <= people.Keys && Ranked(uses, shown)
      invariant forall k :: k in shown <==> Qualifies(people, k) && k !in rest
      decreases |rest|
    {
      var key :| key in rest;
      rest := rest - {key};
      if |people[key]| >= MIN_GROUP {
        var at := 0;
        while at < |shown| && !Ranks(uses, key, shown[at])
          invariant 0 <= at <= |shown|
          invariant forall a | 0 <= a < at :: !Ranks(uses, key, shown[a])
        {
          at := at + 1;
        }
        InsertRanked(uses, shown, key, at);
        shown := shown[..at] + [key] + shown[at..];
      }
    }
  }

  /** Uses and people of everything not listed. */
  method Others(people: map<string, set<string>>, uses: map<string, nat>, listed: set<string>) returns (count: nat, who: set<string>)
    ensures count == Total(UsesOf(uses, people.Keys - listed)) && who == PeopleOf(people, people.Keys - listed)
  {
    hide Total, UsesOf, PeopleOf;
    who, count := {}, 0;
    var rest := people.Keys;
    ghost var left: set<string> := {};
    NoneLeft(people, uses);
    while rest != {}
      invariant rest <= people.Keys
      invariant left == people.Keys - listed - rest
      invariant count == Total(UsesOf(uses, left)) && who == PeopleOf(people, left)
      decreases |rest|
    {
      var key :| key in rest;
      rest := rest - {key};
      if key !in listed {
        AddOther(people, uses, left, key);
        who := who + people[key];
        count := count + Counted(uses, key);
        left := left + {key};
      }
    }
    assert left == people.Keys - listed;
  }

  /** At most `limit` rows, biggest first; the rest summed. */
  method Grouped(people: map<string, set<string>>, uses: map<string, nat>, limit: Option<nat>) returns (rows: seq<Row>, other: Option<Rest>)
    ensures RowsTrue(people, uses, rows)
    ensures RowsGreatest(people, uses, limit, rows)
    ensures Conserved(people, uses, rows, other)
  {
    hide Ranks, Total, RowsTrue, RowsGreatest, Conserved, Sum;
    var all := ShownKeys(people, uses);
    var shown := if limit.Some? && limit.value < |all| then all[..limit.value] else all;
    assert forall k | k in shown :: k in all;
    rows := RowsOf(people, uses, shown);
    var count, who := Others(people, uses, KeySet(shown));
    other := if count != 0 then Some(Rest(count, |who|)) else None;
    KeysOfRows(people, uses, shown);
    RowsAdd(people, uses, shown);
    NothingLost(people, uses, rows, other);
    Greatest(people, uses, limit, all, shown);
    assert RowsTrue(people, uses, rows) by { AreTrue(people, uses, shown); }
  }

  function KeySet(shown: seq<string>): set<string> { set k | k in shown }

  function RowsOf(people: map<string, set<string>>, uses: map<string, nat>, shown: seq<string>): (rows: seq<Row>)
    requires forall k | k in shown :: k in people
    ensures |rows| == |shown| && forall i | 0 <= i < |rows| :: rows[i] == Row(shown[i], Counted(uses, shown[i]), |people[shown[i]]|)
  {
    seq(|shown|, i requires 0 <= i < |shown| => Row(shown[i], Counted(uses, shown[i]), |people[shown[i]]|))
  }

  lemma NoneLeft(people: map<string, set<string>>, uses: map<string, nat>)
    ensures Total(UsesOf(uses, {})) == 0 && PeopleOf(people, {}) == {}
  {
    ZeroTotal(UsesOf(uses, {}));
  }

  lemma AddOther(people: map<string, set<string>>, uses: map<string, nat>, left: set<string>, key: string)
    requires key in people && key !in left
    ensures PeopleOf(people, left + {key}) == PeopleOf(people, left) + people[key]
    ensures Total(UsesOf(uses, left + {key})) == Total(UsesOf(uses, left)) + Counted(uses, key)
  {
    hide Total;
    assert UsesOf(uses, left + {key}) == UsesOf(uses, left)[key := Counted(uses, key)];
    TotalInsert(UsesOf(uses, left), key, Counted(uses, key));
  }

  lemma KeysOfRows(people: map<string, set<string>>, uses: map<string, nat>, shown: seq<string>)
    requires forall k | k in shown :: k in people
    ensures Keys(RowsOf(people, uses, shown)) == KeySet(shown)
  {
    var rows := RowsOf(people, uses, shown);
    forall k | k in shown ensures k in Keys(rows) {
      var i :| 0 <= i < |shown| && shown[i] == k;
      assert rows[i] in rows && rows[i].key == k;
    }
  }

  lemma AreTrue(people: map<string, set<string>>, uses: map<string, nat>, shown: seq<string>)
    requires forall k | k in shown :: k in people && Qualifies(people, k)
    ensures RowsTrue(people, uses, RowsOf(people, uses, shown))
  {
  }

  lemma RowsOfFront(people: map<string, set<string>>, uses: map<string, nat>, shown: seq<string>)
    requires shown != [] && forall k | k in shown :: k in people
    ensures forall k | k in shown[..|shown| - 1] :: k in people
    ensures Sum(RowsOf(people, uses, shown)) == Sum(RowsOf(people, uses, shown[..|shown| - 1])) + Counted(uses, shown[|shown| - 1])
  {
    var front := shown[..|shown| - 1];
    assert shown == front + [shown[|shown| - 1]];
    assert forall k | k in front :: k in shown;
    assert RowsOf(people, uses, shown)[..|front|] == RowsOf(people, uses, front);
  }

  lemma KeySetFront(shown: seq<string>)
    requires shown != []
    ensures KeySet(shown) == KeySet(shown[..|shown| - 1]) + {shown[|shown| - 1]}
  {
    assert shown == shown[..|shown| - 1] + [shown[|shown| - 1]];
  }

  /** Listed counts are the uses of the listed keys. */
  lemma {:induction false} RowsAdd(people: map<string, set<string>>, uses: map<string, nat>, shown: seq<string>)
    requires forall k | k in shown :: k in people
    requires forall a, b | 0 <= a < b < |shown| :: shown[a] != shown[b]
    ensures Sum(RowsOf(people, uses, shown)) == Total(UsesOf(uses, KeySet(shown)))
  {
    if shown == [] {
      NoneLeft(people, uses);
    } else {
      hide Total, Sum, UsesOf, PeopleOf, RowsOf, Counted;
      var front, last := shown[..|shown| - 1], shown[|shown| - 1];
      RowsOfFront(people, uses, shown);
      KeySetFront(shown);
      RowsAdd(people, uses, front);
      AddOther(people, uses, KeySet(front), last);
    }
  }

  lemma NothingLost(people: map<string, set<string>>, uses: map<string, nat>, rows: seq<Row>, other: Option<Rest>)
    requires Keys(rows) <= people.Keys && Sum(rows) == Total(UsesOf(uses, Keys(rows)))
    requires var left := people.Keys - Keys(rows); var count := Total(UsesOf(uses, left));
      other == if count != 0 then Some(Rest(count, |PeopleOf(people, left)|)) else None
    ensures Conserved(people, uses, rows, other)
  {
    hide Total, Sum, PeopleOf;
    var left := people.Keys - Keys(rows);
    assert Keys(rows) + left == people.Keys;
    TotalSplit(UsesOf(uses, people.Keys), UsesOf(uses, Keys(rows)), UsesOf(uses, left));
  }

  lemma Greatest(people: map<string, set<string>>, uses: map<string, nat>, limit: Option<nat>, all: seq<string>, shown: seq<string>)
    requires Ranked(uses, all) && (forall k :: k in all <==> Qualifies(people, k))
    requires shown == if limit.Some? && limit.value < |all| then all[..limit.value] else all
    requires forall k | k in shown :: k in people
    ensures RowsGreatest(people, uses, limit, RowsOf(people, uses, shown))
  {
    hide Ranks, Qualifies, Counted;
    var rows := RowsOf(people, uses, shown);
    KeysOfRows(people, uses, shown);
    assert forall a | 0 <= a < |shown| :: shown[a] in shown && all[a] == shown[a];
    forall k | k in all && k !in shown ensures |shown| < |all| && forall i | 0 <= i < |shown| :: Ranks(uses, shown[i], k) {
      var j :| 0 <= j < |all| && all[j] == k;
    }
  }

  // ----- projects by category -----

  /** How often a key is used, and by whom. */
  ghost function TimesUsed(uses: seq<Use>, key: string): nat {
    if uses == [] then 0 else TimesUsed(uses[..|uses| - 1], key) + if uses[|uses| - 1].key == key then 1 else 0
  }

  ghost function UsersOf(uses: seq<Use>, key: string): set<string> { set u | u in uses && u.key == key :: u.owner }

  /** Every use counted under its key, so the breakdown's counts and `other` add up to all of them. */
  method Breakdown(all: seq<Use>, limit: Option<nat>) returns (rows: seq<Row>, other: Option<Rest>)
    ensures Sum(rows) + (if other.Some? then other.value.count else 0) == |all|
    ensures forall r | r in rows :: r.count == TimesUsed(all, r.key) && r.people == |UsersOf(all, r.key)| && r.people >= MIN_GROUP
    ensures forall a, b | 0 <= a < b < |rows| ::
      rows[a].key != rows[b].key && (rows[a].count > rows[b].count || (rows[a].count == rows[b].count && CompareText(rows[a].key, rows[b].key) == Less))
    ensures forall k | |UsersOf(all, k)| >= MIN_GROUP && k !in Keys(rows) ::
      limit.Some? && |rows| == limit.value && forall r | r in rows :: r.count >= TimesUsed(all, k)
  {
    hide Total, Sum, TimesUsed, UsersOf, CompareText;
    var people: map<string, set<string>>, uses: map<string, nat> := map[], map[];
    NoUses();
    for i := 0 to |all|
      invariant people.Keys == uses.Keys && Total(uses) == i
      invariant forall k :: Counted(uses, k) == TimesUsed(all[..i], k) && PeopleAt(people, k) == UsersOf(all[..i], k)
    {
      var use := all[i];
      ghost var was, before := people, uses;
      people := people[use.key := PeopleAt(people, use.key) + {use.owner}];
      uses := uses[use.key := Counted(uses, use.key) + 1];
      TotalCounted(before, use.key);
      forall k ensures Counted(uses, k) == TimesUsed(all[..i + 1], k) && PeopleAt(people, k) == UsersOf(all[..i + 1], k) {
        OneMore(all, i, k);
      }
    }
    assert all[..|all|] == all;
    rows, other := Grouped(people, uses, limit);
    assert UsesOf(uses, people.Keys) == uses;
    forall a, b | 0 <= a < b < |rows|
      ensures rows[a].count > rows[b].count || (rows[a].count == rows[b].count && CompareText(rows[a].key, rows[b].key) == Less)
    {
      RanksIs(uses, rows[a].key, rows[b].key);
      assert rows[a] in rows && rows[b] in rows;
    }
    forall k | |UsersOf(all, k)| >= MIN_GROUP ensures Qualifies(people, k) {
      assert PeopleAt(people, k) == UsersOf(all, k);
    }
  }

  function PeopleAt(people: map<string, set<string>>, key: string): set<string> { if key in people then people[key] else {} }

  lemma NoUses()
    ensures Total<string>(map[]) == 0
    ensures forall k :: TimesUsed([], k) == 0 && UsersOf([], k) == {}
  {
  }

  lemma TotalCounted(uses: map<string, nat>, key: string)
    ensures Total(uses[key := Counted(uses, key) + 1]) == Total(uses) + 1
  {
    if key in uses { TotalUpdate(uses, key, uses[key] + 1); } else { TotalInsert(uses, key, 1); }
  }

  lemma OneMore(all: seq<Use>, i: nat, key: string)
    requires i < |all|
    ensures TimesUsed(all[..i + 1], key) == TimesUsed(all[..i], key) + if all[i].key == key then 1 else 0
    ensures UsersOf(all[..i + 1], key) == UsersOf(all[..i], key) + if all[i].key == key then {all[i].owner} else {}
  {
    assert all[..i + 1][..i] == all[..i];
    assert all[..i + 1] == all[..i] + [all[i]];
  }
}
