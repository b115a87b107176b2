/** How Python orders integers, text and tuples of them; comparing across types is its TypeError. */
module PythonOrder {
  import opened Prelude

  datatype Order = Less | Equal | Greater

  datatype Value = Num(n: int) | Text(text: string) | Tuple(items: seq<Value>)

  function CompareInt(a: int, b: int): Order { if a < b then Less else if a == b then Equal else Greater }

  /** By code point, a prefix first. */
  function CompareText(s: string, t: string): Order {
    if s == "" || t == "" then CompareInt(|s|, |t|)
    else if s[0] == t[0] then CompareText(s[1..], t[1..])
    else CompareInt(s[0] as int, t[0] as int)
  }

  /** None is a TypeError. */
  function Compare(a: Value, b: Value): Option<Order>
    decreases a, 1, 0
  {
    match (a, b)
    case (Num(x), Num(y)) => Some(CompareInt(x, y))
    case (Text(s), Text(t)) => Some(CompareText(s, t))
    case (Tuple(_), Tuple(_)) => CompareFrom(a, b, 0)
    case _ => None
  }

  /** Tuples compare by the first items that differ, and by length when none do. */
  function CompareFrom(a: Value, b: Value, i: nat): Option<Order>
    requires a.Tuple? && b.Tuple? && i <= |a.items| && i <= |b.items|
    decreases a, 0, |a.items| - i
  {
    if i == |a.items| || i == |b.items| then Some(CompareInt(|a.items|, |b.items|)) else
      var first := Compare(a.items[i], b.items[i]);
      if first == Some(Equal) then CompareFrom(a, b, i + 1) else first
  }

  // ----- the order, by the first difference -----

  ghost predicate TextBeforeAt(s: string, t: string, i: nat) {
    && i <= |s| && i <= |t| && s[..i] == t[..i]
    && i < |t| && (i == |s| || s[i] < t[i])
  }

  /** At the first place they differ, the smaller character, or the end, is s's. */
  ghost predicate TextBefore(s: string, t: string) { exists i :: TextBeforeAt(s, t, i) }

  lemma {:induction false} TextOrder(s: string, t: string)
    ensures CompareText(s, t) == Equal <==> s == t
    ensures CompareText(s, t) == Less <==> TextBefore(s, t)
  {
    if s == "" || t == "" {
      assert s == "" && t != "" ==> TextBeforeAt(s, t, 0);
    } else if s[0] == t[0] {
      TextOrder(s[1..], t[1..]);
      assert s == [s[0]] + s[1..] && t == [t[0]] + t[1..];
      if i: nat :| TextBeforeAt(s[1..], t[1..], i) {
        assert s[..i + 1] == [s[0]] + s[1..][..i] && t[..i + 1] == [t[0]] + t[1..][..i];
        assert TextBeforeAt(s, t, i + 1);
      }
      if i: nat :| TextBeforeAt(s, t, i) {
        assert i > 0;
        assert s[1..][..i - 1] == s[..i][1..] && t[1..][..i - 1] == t[..i][1..];
        assert TextBeforeAt(s[1..], t[1..], i - 1);
      }
    } else {
      assert s[0] < t[0] ==> TextBeforeAt(s, t, 0);
      if TextBefore(s, t) { HeadsOfBefore(s, t); }
    }
  }

  lemma HeadsOfBefore(s: string, t: string)
    requires s != "" && t != "" && TextBefore(s, t)
    ensures s[0] <= t[0]
  {
    var i: nat :| TextBeforeAt(s, t, i);
    if i > 0 { assert s[..i][0] == t[..i][0]; }
  }

  lemma {:induction false} TextFlip(s: string, t: string)
    ensures CompareText(t, s) == Flipped(CompareText(s, t))
  {
    if s != "" && t != "" && s[0] == t[0] { TextFlip(s[1..], t[1..]); }
  }

  lemma {:induction false} TextTransitive(s: string, t: string, u: string)
    requires CompareText(s, t) == Less && CompareText(t, u) == Less
    ensures CompareText(s, u) == Less
  {
    if s != "" && t != "" && u != "" && s[0] == t[0] == u[0] {
      TextTransitive(s[1..], t[1..], u[1..]);
    }
  }

  function Flipped(o: Order): Order {
    match o
    case Less => Greater
    case Equal => Equal
    case Greater => Less
  }

  ghost predicate BeforeAt(a: seq<Value>, b: seq<Value>, i: nat) {
    && i <= |a| && i <= |b| && a[..i] == b[..i]
    && i < |b| && (i == |a| || Compare(a[i], b[i]) == Some(Less))
  }

  lemma {:induction false} EqualIsSame(a: Value, b: Value)
    ensures Compare(a, b) == Some(Equal) <==> a == b
    decreases a, 1, 0
  {
    match (a, b)
    case (Text(s), Text(t)) => TextOrder(s, t);
    case (Tuple(_), Tuple(_)) => EqualFrom(a, b, 0);
    case _ =>
  }

  lemma {:induction false} EqualFrom(a: Value, b: Value, i: nat)
    requires a.Tuple? && b.Tuple? && i <= |a.items| && i <= |b.items| && a.items[..i] == b.items[..i]
    ensures CompareFrom(a, b, i) == Some(Equal) <==> a.items == b.items
    decreases a, 0, |a.items| - i
  {
    if i == |a.items| || i == |b.items| {
      assert a.items[..i] == a.items || b.items[..i] == b.items;
    } else {
      EqualIsSame(a.items[i], b.items[i]);
      if a.items[i] == b.items[i] {
        assert a.items[..i + 1] == a.items[..i] + [a.items[i]];
        assert b.items[..i + 1] == b.items[..i] + [b.items[i]];
        EqualFrom(a, b, i + 1);
      }
    }
  }

  /** A tuple is less exactly when, at the first difference, it ends or its item is less. */
  lemma TupleLess(a: Value, b: Value)
    requires a.Tuple? && b.Tuple?
    ensures Compare(a, b) == Some(Less) <==> exists i :: BeforeAt(a.items, b.items, i)
  {
    LessFrom(a, b, 0);
  }

  lemma {:induction false} LessFrom(a: Value, b: Value, i: nat)
    requires a.Tuple? && b.Tuple? && i <= |a.items| && i <= |b.items| && a.items[..i] == b.items[..i]
    ensures CompareFrom(a, b, i) == Some(Less) <==> exists k :: BeforeAt(a.items, b.items, k)
    decreases |a.items| - i
  {
    var s, t := a.items, b.items;
    if i < |s| && i < |t| && Compare(s[i], t[i]) == Some(Equal) {
      EqualIsSame(s[i], t[i]);
      assert s[..i + 1] == s[..i] + [s[i]] && t[..i + 1] == t[..i] + [t[i]];
      LessFrom(a, b, i + 1);
    } else {
      assert CompareFrom(a, b, i) == Some(Less) ==> BeforeAt(s, t, i);
      if k: nat :| BeforeAt(s, t, k) {
        OnlyFirst(s, t, i, k);
      }
    }
  }

  /** Where one list goes before the other is where they first differ. */
  lemma OnlyFirst(s: seq<Value>, t: seq<Value>, i: nat, k: nat)
    requires BeforeAt(s, t, k) && i <= |s| && i <= |t| && s[..i] == t[..i]
    requires i < |s| && i < |t| ==> Compare(s[i], t[i]) != Some(Equal)
    ensures k == i
  {
    if k < i {
      assert s[..i][k] == t[..i][k];
      EqualIsSame(s[k], t[k]);
    } else if k > i {
      assert s[..k][i] == t[..k][i];
      EqualIsSame(s[i], t[i]);
    }
  }

  lemma {:induction false} CompareFlip(a: Value, b: Value)
    ensures Compare(b, a) == match Compare(a, b) case None => None case Some(o) => Some(Flipped(o))
    decreases a, 1, 0
  {
    match (a, b)
    case (Text(s), Text(t)) => TextFlip(s, t);
    case (Tuple(_), Tuple(_)) => FlipFrom(a, b, 0);
    case _ =>
  }

  lemma {:induction false} FlipFrom(a: Value, b: Value, i: nat)
    requires a.Tuple? && b.Tuple? && i <= |a.items| && i <= |b.items|
    ensures CompareFrom(b, a, i) == match CompareFrom(a, b, i) case None => None case Some(o) => Some(Flipped(o))
    decreases a, 0, |a.items| - i
  {
    if i < |a.items| && i < |b.items| {
      CompareFlip(a.items[i], b.items[i]);
      FlipFrom(a, b, i + 1);
    }
  }

  lemma {:induction false} LessTransitive(a: Value, b: Value, c: Value)
    requires Compare(a, b) == Some(Less) && Compare(b, c) == Some(Less)
    ensures Compare(a, c) == Some(Less)
    decreases a
  {
    match (a, b, c)
    case (Text(s), Text(t), Text(u)) => TextTransitive(s, t, u);
    case (Tuple(s), Tuple(t), Tuple(u)) =>
      TupleLess(a, b);
      TupleLess(b, c);
      TupleLess(a, c);
      var i: nat :| BeforeAt(s, t, i);
      var j: nat :| BeforeAt(t, u, j);
      var k := if i < j then i else j;
      assert s[..k] == s[..i][..k] && t[..k] == t[..i][..k] && t[..k] == t[..j][..k] && u[..k] == u[..j][..k];
      if i < j {
        assert t[i] == t[..j][i] && u[i] == u[..j][i];
      } else if j < i {
        assert s[j] == s[..i][j] && t[j] == t[..i][j];
      } else if i < |s| {
        LessTransitive(s[i], t[i], u[i]);
      }
      assert BeforeAt(s, u, k);
    case _ =>
  }
}
