/** The version order of releases, and semantic-version precedence (section 11 of Semantic Versioning 2.0.0) to hold it against. */
module ReleaseVersion {
  import opened Prelude
  import opened IfMatch
  import opened PythonOrder

  // ----- the sort key, from the text -----

  /** How many digits a text starts with. */
  function DigitRun(s: string): (n: nat)
    ensures n <= |s|
  {
    if s != "" && IsDigit(s[0]) then 1 + DigitRun(s[1..]) else 0
  }

  predicate IsPreChar(c: char) { IsDigit(c) || 'A' <= c <= 'Z' || 'a' <= c <= 'z' || c == '.' || c == '-' }

  datatype Groups = Groups(major: string, minor: string, patch: string, pre: string)

  /** "$" also matches before one last line break. */
  function DropLineBreak(s: string): string { if s != "" && s[|s| - 1] == '\n' then s[..|s| - 1] else s }

  /** A run of digits and the rest, when there is at least one. */
  function Digits(s: string): Option<(string, string)> {
    var n := DigitRun(s);
    if n == 0 then None else Some((s[..n], s[n..]))
  }

  /** The same, after a full stop. */
  function DottedDigits(s: string): Option<(string, string)> {
    if s != "" && s[0] == '.' then Digits(s[1..]) else None
  }

  /** None is no pre-release part at all that the pattern takes. */
  function PreRelease(s: string): Option<string> {
    if s == "" then Some("")
    else if s[0] == '-' && |s| > 1 && forall c | c in s[1..] :: IsPreChar(c) then Some(s[1..])
    else None
  }

  /** What the version pattern captures of a text whose digits are folded; None when it does not match. */
  function Captured(version: string): Option<Groups> {
    match Digits(DropLineBreak(version))
    case None => None
    case Some((major, a)) =>
      match DottedDigits(a)
      case None => None
      case Some((minor, b)) =>
        match DottedDigits(b)
        case None => None
        case Some((patch, c)) =>
          match PreRelease(c)
          case None => None
          case Some(pre) => Some(Groups(major, minor, patch, pre))
  }

  /** Where the first full stop is, or the length. */
  function DotAt(s: string): (n: nat)
    ensures n <= |s|
  {
    if s == "" || s[0] == '.' then 0 else 1 + DotAt(s[1..])
  }

  function SplitDots(s: string): seq<string>
    decreases |s|
  {
    var n := DotAt(s);
    if n == |s| then [s] else [s[..n]] + SplitDots(s[n + 1..])
  }

  function NumberOf(digits: string): nat { if AllDigits(digits) then ParseDecimal(digits) else 0 }

  function PartKey(part: string): Value {
    if part != "" && AllDigits(part) then Tuple([Num(0), Num(NumberOf(part)), Text("")])
    else Tuple([Num(1), Num(0), Text(part)])
  }

  function PartKeys(parts: seq<string>): seq<Value> { seq(|parts|, i requires 0 <= i < |parts| => PartKey(parts[i])) }

  function CapturedKey(version: string): Value {
    match Captured(version)
    case None => Tuple([Num(-1)])
    case Some(g) =>
      var pre := if g.pre == "" then [Num(1), Tuple([])] else [Num(0), Tuple(PartKeys(SplitDots(g.pre)))];
      Tuple([Num(NumberOf(g.major)), Num(NumberOf(g.minor)), Num(NumberOf(g.patch))] + pre)
  }

  // ----- the key order is total on every text -----

  predicate IsPartKey(v: Value) { v.Tuple? && |v.items| == 3 && v.items[0].Num? && v.items[1].Num? && v.items[2].Text? }

  lemma PartsCompare(a: Value, b: Value)
    requires IsPartKey(a) && IsPartKey(b)
    ensures Compare(a, b).Some?
  {
    var s, t := a.items, b.items;
    assert Compare(s[0], t[0]).Some? && Compare(s[1], t[1]).Some? && Compare(s[2], t[2]).Some?;
    assert CompareFrom(a, b, 3).Some?;
    assert CompareFrom(a, b, 2).Some?;
    assert CompareFrom(a, b, 1).Some?;
  }

  lemma {:induction false} PartListsCompare(a: Value, b: Value, i: nat)
    requires a.Tuple? && b.Tuple? && i <= |a.items| && i <= |b.items|
    requires (forall v | v in a.items :: IsPartKey(v)) && (forall v | v in b.items :: IsPartKey(v))
    ensures CompareFrom(a, b, i).Some?
    decreases |a.items| - i
  {
    if i < |a.items| && i < |b.items| {
      PartsCompare(a.items[i], b.items[i]);
      PartListsCompare(a, b, i + 1);
    }
  }

  /** The shape of every key: release keys hold 1 and nothing, pre-release keys 0 and their parts. */
  predicate IsKey(k: Value) {
    && k.Tuple?
    && (k.items == [Num(-1)]
        || (|k.items| == 5 && k.items[0].Num? && k.items[1].Num? && k.items[2].Num? && k.items[3].Num? && k.items[4].Tuple?
            && (forall v | v in k.items[4].items :: IsPartKey(v))))
  }

  lemma KeyShape(version: string)
    ensures IsKey(CapturedKey(version))
  {
    hide Captured, NumberOf, SplitDots, PartKey;
    match Captured(version)
    case None =>
    case Some(g) => AllPartKeys(SplitDots(g.pre));
  }

  lemma AllPartKeys(parts: seq<string>)
    ensures forall v | v in PartKeys(parts) :: IsPartKey(v)
  {
    hide NumberOf;
  }

  lemma KeysCompare(a: Value, b: Value)
    requires IsKey(a) && IsKey(b)
    ensures Compare(a, b).Some?
  {
    assert Compare(a.items[0], b.items[0]).Some?;
    if |a.items| == 5 && |b.items| == 5 {
      assert forall i | 0 <= i < 4 :: Compare(a.items[i], b.items[i]).Some?;
      PartListsCompare(a.items[4], b.items[4], 0);
      assert CompareFrom(a, b, 5).Some?;
      assert CompareFrom(a, b, 4).Some?;
      assert CompareFrom(a, b, 3).Some?;
      assert CompareFrom(a, b, 2).Some?;
      assert CompareFrom(a, b, 1).Some?;
    } else {
      assert CompareFrom(a, b, 1).Some?;
    }
  }

  // ----- decimal digits of every script -----

  /** What \d takes for a digit becomes that digit in ASCII; no other character changes, and none of ASCII. */
  ghost predicate FoldsDigits(f: char -> char) {
    && (forall c | c < '\U{80}' :: f(c) == c)
    && (forall c :: f(c) == c || IsDigit(f(c)))
  }

  function Unchanged(c: char): char { c }

  type Fold = f: char -> char | FoldsDigits(f) witness Unchanged

  /** The numbers end where the first hyphen is, or the text does. */
  function CoreEnd(s: string): (n: nat)
    ensures n <= |s|
  {
    if s == "" || s[0] == '-' then 0 else 1 + CoreEnd(s[1..])
  }

  function FoldAll(fold: Fold, s: string): string { seq(|s|, i requires 0 <= i < |s| => fold(s[i])) }

  /** The text with the digits of its numbers in ASCII. A pre-release has only ASCII. */
  function Folded(fold: Fold, version: string): string {
    FoldAll(fold, version[..CoreEnd(version)]) + version[CoreEnd(version)..]
  }

  /** What the version pattern captures, digits of the numbers as ASCII; None when it does not match. */
  function Matched(fold: Fold, version: string): Option<Groups> { Captured(Folded(fold, version)) }

  function Key(fold: Fold, version: string): Value { CapturedKey(Folded(fold, version)) }

  lemma {:induction false} AsciiStays(fold: Fold, s: string)
    requires forall c | c in s :: c < '\U{80}'
    ensures Folded(fold, s) == s
  {
    var n := CoreEnd(s);
    assert forall i | 0 <= i < n :: s[i] in s;
    assert FoldAll(fold, s[..n]) == s[..n];
  }

  /** How sorting sees two versions. */
  function VersionOrder(fold: Fold, s: string, t: string): Order {
    match Compare(Key(fold, s), Key(fold, t))
    case Some(o) => o
    case None => Equal
  }

  /** Sorting versions never raises a TypeError, whatever texts they are. */
  lemma NeverTypeError(fold: Fold, s: string, t: string)
    ensures Compare(Key(fold, s), Key(fold, t)) == Some(VersionOrder(fold, s, t))
  {
    hide CapturedKey, IsKey, Folded;
    KeyShape(Folded(fold, s));
    KeyShape(Folded(fold, t));
    KeysCompare(Key(fold, s), Key(fold, t));
  }

  /** A total preorder on every pair and triple of texts. */
  lemma TotalPreorder(fold: Fold, s: string, t: string, u: string)
    ensures VersionOrder(fold, t, s) == Flipped(VersionOrder(fold, s, t))
    ensures VersionOrder(fold, s, t) == Equal <==> Key(fold, s) == Key(fold, t)
    ensures VersionOrder(fold, s, t) != Greater && VersionOrder(fold, t, u) != Greater ==> VersionOrder(fold, s, u) != Greater
    ensures VersionOrder(fold, s, t) != Greater && VersionOrder(fold, t, u) != Greater && VersionOrder(fold, s, u) == Equal ==>
      VersionOrder(fold, s, t) == Equal
  {
    hide Key, Compare;
    var a, b, c := Key(fold, s), Key(fold, t), Key(fold, u);
    NeverTypeError(fold, s, t);
    NeverTypeError(fold, t, u);
    NeverTypeError(fold, s, u);
    CompareFlip(a, b);
    EqualIsSame(a, b);
    EqualIsSame(b, c);
    EqualIsSame(a, c);
    if VersionOrder(fold, s, t) == Less && VersionOrder(fold, t, u) == Less { LessTransitive(a, b, c); }
  }
}
