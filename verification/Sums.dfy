/** Sums over the rows of a table: the value column of a map, added up in any order. */
module Sums {
  ghost function Total<K(!new)>(m: map<K, nat>): nat {
    if m == map[] then 0 else
      var k :| k in m;
      m[k] + Total(m - {k})
  }

  /** Any row may be taken out first. */
  lemma {:induction false} TotalRemove<K(!new)>(m: map<K, nat>, k: K)
    requires k in m
    ensures Total(m) == m[k] + Total(m - {k})
    decreases |m|
  {
    var j :| j in m && Total(m) == m[j] + Total(m - {j});
    if j != k {
      assert k in m - {j} && j in m - {k};
      TotalRemove(m - {j}, k);
      TotalRemove(m - {k}, j);
      assert m - {j} - {k} == m - {k} - {j};
    }
  }

  lemma TotalInsert<K(!new)>(m: map<K, nat>, k: K, v: nat)
    requires k !in m
    ensures Total(m[k := v]) == Total(m) + v
  {
    TotalRemove(m[k := v], k);
    assert m[k := v] - {k} == m;
  }

  lemma TotalUpdate<K(!new)>(m: map<K, nat>, k: K, v: nat)
    requires k in m
    ensures Total(m[k := v]) == Total(m) - m[k] + v
  {
    TotalRemove(m, k);
    TotalRemove(m[k := v], k);
    assert m[k := v] - {k} == m - {k};
  }

  /** A table split in two by its keys. */
  ghost predicate Split<K(!new)>(whole: map<K, nat>, m: map<K, nat>, n: map<K, nat>) {
    && m.Keys !! n.Keys && whole.Keys == m.Keys + n.Keys
    && (forall k | k in m :: whole[k] == m[k])
    && (forall k | k in n :: whole[k] == n[k])
  }

  lemma SplitWithout<K(!new)>(whole: map<K, nat>, m: map<K, nat>, n: map<K, nat>, k: K)
    requires Split(whole, m, n) && k in m
    ensures Split(whole - {k}, m - {k}, n)
  {
    var w, r := whole - {k}, m - {k};
    assert forall x :: x in w <==> x in whole && x != k;
    assert forall x :: x in r <==> x in m && x != k;
    assert w.Keys == r.Keys + n.Keys;
  }

  lemma {:induction false} TotalSplit<K(!new)>(whole: map<K, nat>, m: map<K, nat>, n: map<K, nat>)
    requires Split(whole, m, n)
    ensures Total(whole) == Total(m) + Total(n)
    decreases |m|
  {
    if |m| == 0 {
      assert m == map[];
      assert whole.Keys == n.Keys;
      assert whole == n;
    } else {
      var k :| k in m;
      SplitWithout(whole, m, n, k);
      TotalSplit(whole - {k}, m - {k}, n);
      TotalRemove(m, k);
      TotalRemove(whole, k);
    }
  }

  /** Dropping rows never raises a total. */
  lemma TotalSubset<K(!new)>(m: map<K, nat>, n: map<K, nat>)
    requires forall k | k in m :: k in n && n[k] == m[k]
    ensures Total(m) <= Total(n)
  {
    var rest := map k | k in n && k !in m :: n[k];
    assert n.Keys == m.Keys + rest.Keys;
    TotalSplit(n, m, rest);
  }

  /** The rows whose group passes a test. */
  ghost function PartBy<K(!new), G(!new)>(m: map<K, nat>, group: K -> G, keep: G -> bool): map<K, nat> {
    map k | k in m && keep(group(k)) :: m[k]
  }

  ghost function Group<K(!new), G(!new)>(m: map<K, nat>, group: K -> G, g: G): map<K, nat> {
    map k | k in m && group(k) == g :: m[k]
  }

  /** The total of one group of rows. */
  ghost function GroupTotal<K(!new), G(!new)>(m: map<K, nat>, group: K -> G, g: G): nat {
    Total(Group(m, group, g))
  }

  ghost function Value<K>(m: map<K, nat>, k: K): nat { if k in m then m[k] else 0 }

  /** Writing one row changes the total of its group by what it changes the row by. */
  lemma GroupWrite<K(!new), G(!new)>(m: map<K, nat>, group: K -> G, g: G, k: K, v: nat)
    ensures GroupTotal(m[k := v], group, g) == GroupTotal(m, group, g) + if group(k) == g then v - Value(m, k) else 0
  {
    var before, after := Group(m, group, g), Group(m[k := v], group, g);
    if group(k) != g {
      assert after == before;
    } else {
      assert after == before[k := v];
      if k in m { TotalUpdate(before, k, v); } else { TotalInsert(before, k, v); }
    }
  }

  lemma GroupsWithout<K(!new), G(!new)>(m: map<K, nat>, group: K -> G, k: K, g: G)
    requires k in m
    ensures GroupTotal(m, group, g) == GroupTotal(m - {k}, group, g) + if group(k) == g then m[k] else 0
  {
    GroupWrite(m - {k}, group, g, k, m[k]);
    assert (m - {k})[k := m[k]] == m;
  }

  lemma ZeroTotal<K(!new)>(m: map<K, nat>)
    requires forall k | k in m :: m[k] == 0
    ensures Total(m) == 0
    decreases |m|
  {
    if m != map[] {
      var k :| k in m && Total(m) == m[k] + Total(m - {k});
      ZeroTotal(m - {k});
    }
  }

  /** Every group with its total, empty groups included. */
  ghost function GroupTotals<K(!new), G(!new)>(m: map<K, nat>, group: K -> G, groups: set<G>): map<G, nat> {
    map g | g in groups :: GroupTotal(m, group, g)
  }

  lemma GroupTotalsWithout<K(!new), G(!new)>(m: map<K, nat>, group: K -> G, groups: set<G>, k: K)
    requires k in m && group(k) in groups
    ensures var rest := GroupTotals(m - {k}, group, groups);
      GroupTotals(m, group, groups) == rest[group(k) := rest[group(k)] + m[k]]
  {
    hide GroupTotal;
    var rest := GroupTotals(m - {k}, group, groups);
    forall g | g in groups ensures GroupTotal(m, group, g) == rest[g] + if group(k) == g then m[k] else 0 {
      GroupsWithout(m, group, k, g);
    }
  }

  /** The groups' totals add up to the whole. */
  lemma {:induction false} TotalByGroup<K(!new), G(!new)>(m: map<K, nat>, group: K -> G, groups: set<G>)
    requires forall k | k in m :: group(k) in groups
    ensures Total(GroupTotals(m, group, groups)) == Total(m)
    decreases |m|
  {
    hide Total, GroupTotal;
    if m == map[] {
      NoGroups(m, group, groups);
    } else {
      var k :| k in m;
      var rest := GroupTotals(m - {k}, group, groups);
      TotalByGroup(m - {k}, group, groups);
      GroupTotalsWithout(m, group, groups, k);
      TotalRemove(m, k);
      TotalUpdate(rest, group(k), rest[group(k)] + m[k]);
    }
  }

  lemma NoGroups<K(!new), G(!new)>(m: map<K, nat>, group: K -> G, groups: set<G>)
    requires m == map[]
    ensures Total(GroupTotals(m, group, groups)) == Total(m) == 0
  {
    forall g | g in groups ensures GroupTotal(m, group, g) == 0 {
      assert Group(m, group, g) == map[];
    }
    ZeroTotal(GroupTotals(m, group, groups));
  }

  lemma PartOfGroup<K(!new), G(!new)>(m: map<K, nat>, group: K -> G, keep: G -> bool, g: G)
    ensures GroupTotal(PartBy(m, group, keep), group, g) == if keep(g) then GroupTotal(m, group, g) else 0
  {
    var kept := PartBy(m, group, keep);
    if keep(g) {
      assert Group(kept, group, g) == Group(m, group, g);
    } else {
      assert Group(kept, group, g) == map[];
    }
  }

  /** Two tables that agree group by group agree on any choice of groups. */
  lemma SameByGroup<K(!new), J(!new), G(!new)>(m: map<K, nat>, n: map<J, nat>, f: K -> G, h: J -> G, keep: G -> bool)
    requires forall g :: GroupTotal(m, f, g) == GroupTotal(n, h, g)
    ensures Total(PartBy(m, f, keep)) == Total(PartBy(n, h, keep))
  {
    hide GroupTotal, Total;
    var a, b := PartBy(m, f, keep), PartBy(n, h, keep);
    var groups := (set k | k in a :: f(k)) + (set j | j in b :: h(j));
    TotalByGroup(a, f, groups);
    TotalByGroup(b, h, groups);
    forall g | g in groups ensures GroupTotal(a, f, g) == GroupTotal(b, h, g) {
      PartOfGroup(m, f, keep, g);
      PartOfGroup(n, h, keep, g);
    }
    assert GroupTotals(a, f, groups) == GroupTotals(b, h, groups);
  }
}
