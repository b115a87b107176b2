/** Semantic Versioning 2.0.0 as its text states it, and the release order's agreement with it. */
module SemVer {
  import opened Prelude
  import opened IfMatch
  import opened PythonOrder
  import opened ReleaseVersion

  datatype Identifier = Numeric(n: nat) | Alpha(text: string)

  /** A version without build metadata, which releases do not have. */
  datatype Version = Version(major: nat, minor: nat, patch: nat, pre: seq<Identifier>)

  predicate IsIdentifierChar(c: char) { IsPreChar(c) && c != '.' }

  /** Section 9: alphanumerics and hyphens, not empty; one without a letter or hyphen is numeric. */
  predicate ValidIdentifier(id: Identifier) {
    id.Alpha? ==> id.text != "" && (forall c | c in id.text :: IsIdentifierChar(c)) && !AllDigits(id.text)
  }

  predicate Valid(v: Version) { forall id | id in v.pre :: ValidIdentifier(id) }

  /** How an identifier is written; numeric ones without leading zeros. */
  function Written(id: Identifier): string {
    match id
    case Numeric(n) => Decimal(n)
    case Alpha(text) => text
  }

  function Joined(ids: seq<Identifier>): string
    requires ids != []
  {
    if |ids| == 1 then Written(ids[0]) else Written(ids[0]) + ("." + Joined(ids[1..]))
  }

  function Dotted(n: nat, more: string): string { "." + Decimal(n) + more }

  function PreText(v: Version): string { if v.pre == [] then "" else "-" + Joined(v.pre) }

  function Render(v: Version): string { Decimal(v.major) + Dotted(v.minor, Dotted(v.patch, PreText(v))) }

  // ----- section 11 -----

  /** 11.4.1 to 11.4.3. */
  ghost predicate IdentifierBefore(a: Identifier, b: Identifier) {
    match (a, b)
    case (Numeric(m), Numeric(n)) => m < n
    case (Numeric(_), Alpha(_)) => true
    case (Alpha(_), Numeric(_)) => false
    case (Alpha(s), Alpha(t)) => TextBefore(s, t)
  }

  ghost predicate IdentifiersBeforeAt(a: seq<Identifier>, b: seq<Identifier>, i: nat) {
    && i <= |a| && i <= |b| && a[..i] == b[..i]
    && i < |b| && (i == |a| || IdentifierBefore(a[i], b[i]))
  }

  /** 11.4: left to right until a difference, and 11.4.4: more fields are higher when all before are equal. */
  ghost predicate IdentifiersBefore(a: seq<Identifier>, b: seq<Identifier>) { exists i :: IdentifiersBeforeAt(a, b, i) }

  /** 11.2, 11.3 and 11.4. */
  ghost predicate Precedes(v: Version, w: Version) {
    if v.major != w.major then v.major < w.major
    else if v.minor != w.minor then v.minor < w.minor
    else if v.patch != w.patch then v.patch < w.patch
    else v.pre != [] && (w.pre == [] || IdentifiersBefore(v.pre, w.pre))
  }

  // ----- the key of a written version -----

  function IdentifierKey(id: Identifier): Value {
    match id
    case Numeric(n) => Tuple([Num(0), Num(n), Text("")])
    case Alpha(text) => Tuple([Num(1), Num(0), Text(text)])
  }

  function IdentifierKeys(ids: seq<Identifier>): seq<Value> {
    seq(|ids|, i requires 0 <= i < |ids| => IdentifierKey(ids[i]))
  }

  function VersionKey(v: Version): Value {
    Tuple([Num(v.major), Num(v.minor), Num(v.patch)]
      + if v.pre == [] then [Num(1), Tuple([])] else [Num(0), Tuple(IdentifierKeys(v.pre))])
  }

  lemma {:induction false} DigitsThenMore(digits: string, more: string)
    requires AllDigits(digits) && (more == "" || !IsDigit(more[0]))
    ensures DigitRun(digits + more) == |digits|
  {
    if digits == "" {
      assert digits + more == more;
    } else {
      assert (digits + more)[1..] == digits[1..] + more;
      assert forall c | c in digits[1..] :: c in digits;
      DigitsThenMore(digits[1..], more);
    }
  }

  lemma DigitsRead(n: nat, more: string)
    requires more == "" || !IsDigit(more[0])
    ensures Digits(Decimal(n) + more) == Some((Decimal(n), more))
    ensures DottedDigits(Dotted(n, more)) == Some((Decimal(n), more))
  {
    hide Decimal;
    DecimalRoundTrip(n);
    DigitsThenMore(Decimal(n), more);
    assert (Decimal(n) + more)[..|Decimal(n)|] == Decimal(n);
    assert (Decimal(n) + more)[|Decimal(n)|..] == more;
    assert Dotted(n, more)[1..] == Decimal(n) + more;
  }

  lemma DecimalIsNumber(n: nat)
    ensures NumberOf(Decimal(n)) == n && Decimal(n) != "" && AllDigits(Decimal(n))
  {
    DecimalRoundTrip(n);
  }

  lemma WrittenChars(id: Identifier)
    requires ValidIdentifier(id)
    ensures Written(id) != "" && (forall c | c in Written(id) :: IsIdentifierChar(c))
    ensures PartKey(Written(id)) == IdentifierKey(id)
  {
    hide Decimal;
    if id.Numeric? { DecimalIsNumber(id.n); }
  }

  lemma {:induction false} DotAfter(s: string, more: string)
    requires (forall c | c in s :: IsIdentifierChar(c)) && (more == "" || more[0] == '.')
    ensures DotAt(s + more) == |s|
  {
    if s == "" {
      assert s + more == more;
    } else {
      assert (s + more)[1..] == s[1..] + more;
      assert s[0] in s && forall c | c in s[1..] :: c in s;
      DotAfter(s[1..], more);
    }
  }

  lemma SplitFirst(first: string, rest: string)
    requires forall c | c in first :: IsIdentifierChar(c)
    ensures SplitDots(first) == [first]
    ensures SplitDots(first + ("." + rest)) == [first] + SplitDots(rest)
  {
    DotAfter(first, "");
    assert first + "" == first;
    var all := first + ("." + rest);
    DotAfter(first, "." + rest);
    assert all[..|first|] == first && all[|first| + 1..] == rest;
  }

  lemma JoinedChars(first: string, rest: string)
    requires (forall c | c in first :: IsIdentifierChar(c)) && (forall c | c in rest :: IsPreChar(c))
    ensures forall c | c in first + ("." + rest) :: IsPreChar(c)
  {
  }

  lemma {:induction false} SplitJoined(ids: seq<Identifier>)
    requires ids != [] && forall id | id in ids :: ValidIdentifier(id)
    ensures Joined(ids) != "" && forall c | c in Joined(ids) :: IsPreChar(c)
    ensures |SplitDots(Joined(ids))| == |ids|
    ensures forall i | 0 <= i < |ids| :: SplitDots(Joined(ids))[i] == Written(ids[i])
  {
    hide Written, SplitDots, PartKey, IdentifierKey, ValidIdentifier;
    var first := Written(ids[0]);
    WrittenChars(ids[0]);
    if |ids| == 1 {
      SplitFirst(first, "");
    } else {
      var rest := Joined(ids[1..]);
      assert forall id | id in ids[1..] :: id in ids;
      SplitJoined(ids[1..]);
      SplitFirst(first, rest);
      JoinedChars(first, rest);
      assert Joined(ids) == first + ("." + rest);
    }
  }

  lemma PreKeys(ids: seq<Identifier>)
    requires ids != [] && forall id | id in ids :: ValidIdentifier(id)
    ensures PartKeys(SplitDots(Joined(ids))) == IdentifierKeys(ids)
  {
    hide SplitDots, Joined, PartKey, IdentifierKey, ValidIdentifier;
    SplitJoined(ids);
    forall i | 0 <= i < |ids| ensures PartKey(SplitDots(Joined(ids))[i]) == IdentifierKey(ids[i]) { WrittenChars(ids[i]); }
  }

  predicate EndsOnLine(s: string) { s != "" && s[|s| - 1] != '\n' }

  lemma PreRead(v: Version)
    requires Valid(v)
    ensures PreText(v) == "" || (!IsDigit(PreText(v)[0]) && EndsOnLine(PreText(v)))
    ensures PreRelease(PreText(v)) == Some(if v.pre == [] then "" else Joined(v.pre))
  {
    if v.pre != [] {
      hide Joined, SplitDots;
      SplitJoined(v.pre);
      var joined := Joined(v.pre);
      assert ("-" + joined)[1..] == joined;
      assert joined[|joined| - 1] in joined;
    }
  }

  lemma DottedEnd(front: string, n: nat, more: string)
    requires more == "" || EndsOnLine(more)
    ensures EndsOnLine(Dotted(n, more)) && EndsOnLine(front + Dotted(n, more)) && Dotted(n, more)[0] == '.'
  {
    hide Decimal;
    DecimalRoundTrip(n);
    assert Decimal(n)[|Decimal(n)| - 1] in Decimal(n);
    var s := Dotted(n, more);
    assert s[|s| - 1] == if more == "" then Decimal(n)[|Decimal(n)| - 1] else more[|more| - 1];
    assert (front + s)[|front + s| - 1] == s[|s| - 1];
  }

  lemma RenderCaptured(v: Version)
    requires Valid(v)
    ensures Captured(Render(v)) == Some(Groups(Decimal(v.major), Decimal(v.minor), Decimal(v.patch), if v.pre == [] then "" else Joined(v.pre)))
  {
    hide Decimal, Digits, DottedDigits, PreRelease, PreText, Joined, Valid, Dotted;
    PreRead(v);
    var c := Dotted(v.patch, PreText(v));
    var b := Dotted(v.minor, c);
    DottedEnd("", v.patch, PreText(v));
    DottedEnd(Decimal(v.major), v.minor, c);
    DigitsRead(v.patch, PreText(v));
    DigitsRead(v.minor, c);
    DigitsRead(v.major, b);
    assert DropLineBreak(Render(v)) == Decimal(v.major) + b;
  }

  lemma CapturedKeyOfVersion(v: Version)
    requires Valid(v)
    ensures CapturedKey(Render(v)) == VersionKey(v)
  {
    hide Captured, Render, Decimal, SplitDots, Joined, PartKeys, IdentifierKeys, NumberOf;
    RenderCaptured(v);
    DecimalIsNumber(v.major);
    DecimalIsNumber(v.minor);
    DecimalIsNumber(v.patch);
    if v.pre != [] {
      SplitJoined(v.pre);
      PreKeys(v.pre);
    }
  }

  // ----- the key order is the precedence -----

  lemma TripleLess(a: Value, b: Value)
    requires IsPartKey(a) && IsPartKey(b)
    ensures Compare(a, b) == Some(Less) <==>
      if a.items[0] != b.items[0] then a.items[0].n < b.items[0].n
      else if a.items[1] != b.items[1] then a.items[1].n < b.items[1].n
      else CompareText(a.items[2].text, b.items[2].text) == Less
  {
    var s, t := a.items, b.items;
    assert Compare(s[0], t[0]).Some? && Compare(s[1], t[1]).Some? && Compare(s[2], t[2]).Some?;
    assert CompareFrom(a, b, 3) == Some(Equal);
    assert CompareFrom(a, b, 2) == Some(CompareText(a.items[2].text, b.items[2].text));
    assert CompareFrom(a, b, 1).Some?;
  }

  lemma IdentifierOrder(a: Identifier, b: Identifier)
    ensures Compare(IdentifierKey(a), IdentifierKey(b)) == Some(Less) <==> IdentifierBefore(a, b)
    ensures IdentifierKey(a) == IdentifierKey(b) <==> a == b
  {
    hide TextBefore, Compare, CompareText;
    TripleLess(IdentifierKey(a), IdentifierKey(b));
    TextOrder("", "");
    if a.Alpha? && b.Alpha? { TextOrder(a.text, b.text); }
  }

  lemma KeysPrefix(a: seq<Identifier>, b: seq<Identifier>, i: nat)
    requires i <= |a| && i <= |b|
    ensures IdentifierKeys(a)[..i] == IdentifierKeys(b)[..i] <==> a[..i] == b[..i]
  {
    hide IdentifierKey;
    var s, t := IdentifierKeys(a), IdentifierKeys(b);
    if s[..i] == t[..i] {
      forall k | 0 <= k < i ensures a[k] == b[k] {
        assert s[..i][k] == t[..i][k];
        IdentifierOrder(a[k], b[k]);
      }
    }
    if a[..i] == b[..i] {
      forall k | 0 <= k < i ensures s[k] == t[k] { assert a[..i][k] == b[..i][k]; }
    }
  }

  lemma IdentifiersOrderAt(a: seq<Identifier>, b: seq<Identifier>, i: nat)
    ensures BeforeAt(IdentifierKeys(a), IdentifierKeys(b), i) <==> IdentifiersBeforeAt(a, b, i)
  {
    hide IdentifierKey, IdentifierBefore, Compare;
    if i <= |a| && i <= |b| {
      KeysPrefix(a, b, i);
      if i < |a| && i < |b| { IdentifierOrder(a[i], b[i]); }
    }
  }

  lemma IdentifiersOrder(a: seq<Identifier>, b: seq<Identifier>)
    ensures Compare(Tuple(IdentifierKeys(a)), Tuple(IdentifierKeys(b))) == Some(Less) <==> IdentifiersBefore(a, b)
    ensures IdentifierKeys(a) == IdentifierKeys(b) <==> a == b
  {
    hide BeforeAt, IdentifiersBeforeAt, Compare;
    TupleLess(Tuple(IdentifierKeys(a)), Tuple(IdentifierKeys(b)));
    forall i: nat ensures BeforeAt(IdentifierKeys(a), IdentifierKeys(b), i) <==> IdentifiersBeforeAt(a, b, i) {
      IdentifiersOrderAt(a, b, i);
    }
    if |a| == |b| {
      KeysPrefix(a, b, |a|);
      assert IdentifierKeys(a)[..|a|] == IdentifierKeys(a) && IdentifierKeys(b)[..|a|] == IdentifierKeys(b);
      assert a[..|a|] == a && b[..|a|] == b;
    }
  }

  /** Five items, compared in turn. */
  lemma KeyLess(a: Value, b: Value)
    requires IsKey(a) && IsKey(b) && |a.items| == 5 && |b.items| == 5
    ensures Compare(a, b) == Some(Less) <==>
      if a.items[0] != b.items[0] then a.items[0].n < b.items[0].n
      else if a.items[1] != b.items[1] then a.items[1].n < b.items[1].n
      else if a.items[2] != b.items[2] then a.items[2].n < b.items[2].n
      else if a.items[3] != b.items[3] then a.items[3].n < b.items[3].n
      else Compare(a.items[4], b.items[4]) == Some(Less)
  {
    var s, t := a.items, b.items;
    assert forall i | 0 <= i < 4 :: Compare(s[i], t[i]) == Some(CompareInt(s[i].n, t[i].n));
    assert CompareFrom(a, b, 5) == Some(Equal);
    assert CompareFrom(a, b, 4) == Compare(s[4], t[4]);
    assert CompareFrom(a, b, 3) == if s[3] == t[3] then CompareFrom(a, b, 4) else Compare(s[3], t[3]);
    assert CompareFrom(a, b, 2) == if s[2] == t[2] then CompareFrom(a, b, 3) else Compare(s[2], t[2]);
    assert CompareFrom(a, b, 1) == if s[1] == t[1] then CompareFrom(a, b, 2) else Compare(s[1], t[1]);
  }

  lemma VersionKeyLess(v: Version, w: Version)
    ensures Compare(VersionKey(v), VersionKey(w)) == Some(Less) <==> Precedes(v, w)
    ensures VersionKey(v) == VersionKey(w) <==> v == w
  {
    hide Compare, IdentifierKeys, IdentifiersBefore;
    KeysAre(v);
    KeysAre(w);
    KeyLess(VersionKey(v), VersionKey(w));
    IdentifiersOrder(v.pre, w.pre);
    EqualIsSame(Tuple([]), Tuple([]));
  }

  lemma KeysAre(v: Version)
    ensures IsKey(VersionKey(v)) && |VersionKey(v).items| == 5
  {
  }

  // ----- on the texts as they come -----

  lemma {:induction false} DecimalIsAscii(n: nat)
    ensures forall c | c in Decimal(n) :: c < '\U{80}'
  {
    DecimalRoundTrip(n);
  }

  lemma PreIsAscii(v: Version)
    requires Valid(v)
    ensures forall c | c in PreText(v) :: c < '\U{80}'
  {
    if v.pre != [] {
      hide Joined, SplitDots;
      SplitJoined(v.pre);
    }
  }

  lemma RenderIsAscii(v: Version)
    requires Valid(v)
    ensures forall c | c in Render(v) :: c < '\U{80}'
  {
    hide Decimal, PreText, Valid;
    DecimalIsAscii(v.major);
    DecimalIsAscii(v.minor);
    DecimalIsAscii(v.patch);
    PreIsAscii(v);
  }

  /** The pattern captures exactly the parts of a valid version, whatever it takes for digits besides. */
  lemma RenderMatches(fold: Fold, v: Version)
    requires Valid(v)
    ensures Matched(fold, Render(v)) ==
      Some(Groups(Decimal(v.major), Decimal(v.minor), Decimal(v.patch), if v.pre == [] then "" else Joined(v.pre)))
  {
    hide Captured, Render, Folded, Valid;
    RenderIsAscii(v);
    AsciiStays(fold, Render(v));
    RenderCaptured(v);
  }

  lemma KeyOfVersion(fold: Fold, v: Version)
    requires Valid(v)
    ensures Key(fold, Render(v)) == VersionKey(v)
  {
    hide CapturedKey, Render, Folded, Valid, VersionKey;
    RenderIsAscii(v);
    AsciiStays(fold, Render(v));
    CapturedKeyOfVersion(v);
  }

  /** Releases are ordered as section 11 says, on every two valid versions; only the same version is equal. */
  lemma {:induction false} OrderIsPrecedence(fold: Fold, v: Version, w: Version)
    requires Valid(v) && Valid(w)
    ensures VersionOrder(fold, Render(v), Render(w)) == Less <==> Precedes(v, w)
    ensures VersionOrder(fold, Render(v), Render(w)) == Equal <==> v == w
    ensures VersionOrder(fold, Render(v), Render(w)) == Greater <==> Precedes(w, v)
  {
    hide Compare, Key, VersionKey, Precedes, Render, Valid;
    KeyOfVersion(fold, v);
    KeyOfVersion(fold, w);
    VersionKeyLess(v, w);
    VersionKeyLess(w, v);
    NeverTypeError(fold, Render(v), Render(w));
    TotalPreorder(fold, Render(v), Render(w), Render(v));
  }
}
