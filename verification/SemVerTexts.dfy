/** Which texts the release pattern takes besides the valid versions, and what it makes of them. */
module SemVerTexts {
  import opened Prelude
  import opened IfMatch
  import opened PythonOrder
  import opened ReleaseVersion
  import opened SemVer

  /** What a part is by its value: a number, or the text itself. */
  function IdentifierOf(part: string): Identifier {
    if part != "" && AllDigits(part) then Numeric(NumberOf(part)) else Alpha(part)
  }

  function IdentifiersOf(parts: seq<string>): seq<Identifier> {
    seq(|parts|, i requires 0 <= i < |parts| => IdentifierOf(parts[i]))
  }

  function CapturedMeaning(text: string): Version
    requires Captured(text).Some?
  {
    var g := Captured(text).value;
    Version(NumberOf(g.major), NumberOf(g.minor), NumberOf(g.patch), if g.pre == "" then [] else IdentifiersOf(SplitDots(g.pre)))
  }

  lemma SplitSome(s: string)
    ensures SplitDots(s) != []
  {
  }

  lemma PartsMean(parts: seq<string>)
    ensures PartKeys(parts) == IdentifierKeys(IdentifiersOf(parts))
  {
    hide NumberOf;
  }

  /** The numbers and identifiers of a text the pattern takes, valid or not. */
  function Meaning(fold: Fold, version: string): Version
    requires Matched(fold, version).Some?
  {
    CapturedMeaning(Folded(fold, version))
  }

  lemma KeyOfText(text: string)
    requires Captured(text).Some?
    ensures CapturedKey(text) == VersionKey(CapturedMeaning(text))
  {
    hide Captured, NumberOf, SplitDots, PartKeys, IdentifierKeys, IdentifiersOf;
    var g := Captured(text).value;
    SplitSome(g.pre);
    PartsMean(SplitDots(g.pre));
    assert |IdentifiersOf(SplitDots(g.pre))| > 0 by { SameLength(SplitDots(g.pre)); }
  }

  lemma SameLength(parts: seq<string>)
    ensures |IdentifiersOf(parts)| == |parts|
  {
  }

  /** On every two texts the pattern takes, the order is precedence of what they mean. */
  lemma {:induction false} OrderIsPrecedenceOfMeaning(fold: Fold, s: string, t: string)
    requires Matched(fold, s).Some? && Matched(fold, t).Some?
    ensures VersionOrder(fold, s, t) == Less <==> Precedes(Meaning(fold, s), Meaning(fold, t))
    ensures VersionOrder(fold, s, t) == Equal <==> Meaning(fold, s) == Meaning(fold, t)
    ensures VersionOrder(fold, s, t) == Greater <==> Precedes(Meaning(fold, t), Meaning(fold, s))
  {
    hide Compare, CapturedKey, VersionKey, Precedes, CapturedMeaning, Captured, Folded;
    KeyOfText(Folded(fold, s));
    KeyOfText(Folded(fold, t));
    VersionKeyLess(Meaning(fold, s), Meaning(fold, t));
    VersionKeyLess(Meaning(fold, t), Meaning(fold, s));
    NeverTypeError(fold, s, t);
    TotalPreorder(fold, s, t, s);
  }

  /** The same number, or the same text. */
  predicate SamePart(p: string, q: string) {
    p == q || (p != "" && q != "" && AllDigits(p) && AllDigits(q) && NumberOf(p) == NumberOf(q))
  }

  predicate SamePre(p: string, q: string) {
    if p == "" || q == "" then p == q else
      var a, b := SplitDots(p), SplitDots(q);
      |a| == |b| && forall i | 0 <= i < |a| :: SamePart(a[i], b[i])
  }

  lemma SamePreMeans(p: string, q: string)
    requires p != "" && q != ""
    ensures SamePre(p, q) <==> IdentifiersOf(SplitDots(p)) == IdentifiersOf(SplitDots(q))
  {
    hide NumberOf, SplitDots;
    var a, b := SplitDots(p), SplitDots(q);
    var x, y := IdentifiersOf(a), IdentifiersOf(b);
    if x == y {
      assert |x| == |a| && |y| == |b|;
      forall i | 0 <= i < |a| ensures SamePart(a[i], b[i]) { assert x[i] == y[i]; }
    }
    if SamePre(p, q) {
      forall i | 0 <= i < |a| ensures x[i] == y[i] { assert SamePart(a[i], b[i]); }
    }
  }

  /**
   Two texts the pattern takes have the same key exactly when their three numbers and their identifiers have the
   same values.
   */
  lemma {:induction false} SameKey(fold: Fold, s: string, t: string)
    requires Matched(fold, s).Some? && Matched(fold, t).Some?
    ensures var a, b := Matched(fold, s).value, Matched(fold, t).value;
      Key(fold, s) == Key(fold, t) <==>
        && NumberOf(a.major) == NumberOf(b.major) && NumberOf(a.minor) == NumberOf(b.minor) && NumberOf(a.patch) == NumberOf(b.patch)
        && SamePre(a.pre, b.pre)
  {
    hide CapturedKey, VersionKey, Captured, NumberOf, SplitDots, IdentifiersOf, SamePre, Folded;
    KeyOfText(Folded(fold, s));
    KeyOfText(Folded(fold, t));
    VersionKeyLess(Meaning(fold, s), Meaning(fold, t));
    var a, b := Matched(fold, s).value, Matched(fold, t).value;
    SplitSome(a.pre);
    SplitSome(b.pre);
    SameLength(SplitDots(a.pre));
    SameLength(SplitDots(b.pre));
    if a.pre != "" && b.pre != "" { SamePreMeans(a.pre, b.pre); }
    EmptyPre(a.pre, b.pre);
  }

  lemma EmptyPre(p: string, q: string)
    ensures p == "" || q == "" ==> (SamePre(p, q) <==> p == q)
  {
  }

  // ----- the texts that are valid versions -----

  predicate NoLeadingZero(digits: string) { |digits| > 1 ==> digits[0] != '0' }

  predicate CanonicalPart(part: string) { part != "" && (AllDigits(part) ==> NoLeadingZero(part)) }

  predicate CanonicalText(version: string)
    requires Captured(version).Some?
  {
    var g := Captured(version).value;
    && NoLeadingZero(g.major) && NoLeadingZero(g.minor) && NoLeadingZero(g.patch)
    && (g.pre != "" ==> forall p | p in SplitDots(g.pre) :: CanonicalPart(p))
    && DropLineBreak(version) == version
  }

  /** Every digit in ASCII, no number with a leading zero, no empty identifier, and no line break at the end. */
  predicate Canonical(fold: Fold, version: string)
    requires Matched(fold, version).Some?
  {
    && (forall c | c in version[..CoreEnd(version)] :: fold(c) == c)
    && CanonicalText(Folded(fold, version))
  }

  lemma {:induction false} PositiveDigits(digits: string)
    requires AllDigits(digits) && digits != "" && digits[0] != '0'
    ensures ParseDecimal(digits) > 0
  {
    var front := digits[..|digits| - 1];
    assert digits[0] in digits && digits[|digits| - 1] in digits && forall c | c in front :: c in digits;
    if front != "" { PositiveDigits(front); }
  }

  lemma ParseSnoc(front: string, last: char)
    requires AllDigits(front) && IsDigit(last)
    ensures AllDigits(front + [last]) && ParseDecimal(front + [last]) == ParseDecimal(front) * 10 + (last as nat - '0' as nat)
  {
    assert (front + [last])[..|front|] == front;
  }

  lemma DecimalSnoc(n: nat, digit: nat)
    requires n > 0 && digit < 10
    ensures Decimal(n * 10 + digit) == Decimal(n) + [DigitChar(digit)]
  {
    assert (n * 10 + digit) / 10 == n && (n * 10 + digit) % 10 == digit;
  }

  lemma {:induction false} DecimalInverse(digits: string)
    requires AllDigits(digits) && digits != "" && NoLeadingZero(digits)
    ensures Decimal(ParseDecimal(digits)) == digits
  {
    var front, last := digits[..|digits| - 1], digits[|digits| - 1];
    assert digits == front + [last];
    assert last in digits && forall c | c in front :: c in digits;
    var digit := last as nat - '0' as nat;
    assert DigitChar(digit) == last;
    assert ParseDecimal("") == 0 && Decimal(digit) == [last];
    assert AllDigits(front) && IsDigit(last);
    hide ParseDecimal, Decimal, AllDigits, DigitChar;
    ParseSnoc(front, last);
    if front != "" {
      PositiveDigits(front);
      DecimalInverse(front);
      DecimalSnoc(ParseDecimal(front), digit);
    }
  }

  lemma {:induction false} DecimalHasNoLeadingZero(n: nat)
    ensures n > 0 ==> Decimal(n) != "" && Decimal(n)[0] != '0'
    ensures NoLeadingZero(Decimal(n))
  {
    if n >= 10 { DecimalHasNoLeadingZero(n / 10); }
  }

  /** A text is its digits and the rest. */
  lemma {:induction false} RunIsDigits(s: string)
    ensures AllDigits(s[..DigitRun(s)])
  {
    if s != "" && IsDigit(s[0]) {
      RunIsDigits(s[1..]);
      var n := DigitRun(s[1..]);
      assert s[..n + 1] == [s[0]] + s[1..][..n];
    }
  }

  lemma DigitsShape(s: string)
    ensures Digits(s).Some? ==> var (a, b) := Digits(s).value; s == a + b && a != "" && AllDigits(a)
    ensures DottedDigits(s).Some? ==> var (a, b) := DottedDigits(s).value; s == "." + a + b && a != "" && AllDigits(a)
  {
    RunIsDigits(s);
    if s != "" {
      RunIsDigits(s[1..]);
      assert s == [s[0]] + s[1..];
    }
  }

  lemma CapturedShape(version: string)
    requires Captured(version).Some?
    ensures var g := Captured(version).value;
      && g.major != "" && AllDigits(g.major) && g.minor != "" && AllDigits(g.minor) && g.patch != "" && AllDigits(g.patch)
      && (forall c | c in g.pre :: IsPreChar(c))
      && DropLineBreak(version) == g.major + ("." + g.minor + ("." + g.patch + if g.pre == "" then "" else "-" + g.pre))
  {
    hide DigitRun, Digits, DottedDigits, AllDigits;
    var s, g := DropLineBreak(version), Captured(version).value;
    var a := Digits(s).value.1;
    var b := DottedDigits(a).value.1;
    var c := DottedDigits(b).value.1;
    DigitsShape(s);
    DigitsShape(a);
    DigitsShape(b);
    assert c == if g.pre == "" then "" else "-" + g.pre by { PreShape(c); }
  }

  lemma PreShape(c: string)
    requires PreRelease(c).Some?
    ensures c == if PreRelease(c).value == "" then "" else "-" + PreRelease(c).value
  {
    if c != "" { assert c == [c[0]] + c[1..]; }
  }

  lemma {:induction false} DotFree(s: string)
    ensures DotAt(s) < |s| ==> s[DotAt(s)] == '.'
    ensures forall c | c in s[..DotAt(s)] :: c != '.' && c in s
  {
    if s != "" && s[0] != '.' {
      DotFree(s[1..]);
      var n := DotAt(s[1..]);
      assert s[..n + 1] == [s[0]] + s[1..][..n];
    }
  }

  /** Parts hold no full stop, and nothing that was not there. */
  lemma {:induction false} PartsWithin(s: string)
    ensures forall p, c | p in SplitDots(s) && c in p :: c != '.' && c in s
    decreases |s|
  {
    DotFree(s);
    var n := DotAt(s);
    if n < |s| {
      PartsWithin(s[n + 1..]);
    } else {
      assert s[..n] == s;
    }
  }

  /** Joining the parts gives the text back. */
  lemma {:induction false} JoinedBack(ids: seq<Identifier>, s: string)
    requires |ids| == |SplitDots(s)| && forall i | 0 <= i < |ids| :: Written(ids[i]) == SplitDots(s)[i]
    ensures ids != [] && Joined(ids) == s
    decreases |s|
  {
    var n := DotAt(s);
    DotFree(s);
    SplitStep(s);
    hide Written, SplitDots, Joined, DotAt;
    if n < |s| {
      var rest := s[n + 1..];
      SplitSome(rest);
      JoinedBack(ids[1..], rest);
      JoinedStep(ids);
      assert s == s[..n] + ("." + rest);
    } else {
      JoinedStep(ids);
    }
  }

  lemma SplitStep(s: string)
    ensures SplitDots(s) == if DotAt(s) == |s| then [s] else [s[..DotAt(s)]] + SplitDots(s[DotAt(s) + 1..])
  {
    hide DotAt;
  }

  lemma JoinedStep(ids: seq<Identifier>)
    requires ids != []
    ensures Joined(ids) == if |ids| == 1 then Written(ids[0]) else Written(ids[0]) + ("." + Joined(ids[1..]))
  {
    hide Written;
  }

  lemma PartWritten(part: string)
    requires CanonicalPart(part) && (forall c | c in part :: IsIdentifierChar(c))
    ensures Written(IdentifierOf(part)) == part && ValidIdentifier(IdentifierOf(part))
  {
    if AllDigits(part) { DecimalInverse(part); }
  }

  lemma PreBack(pre: string)
    requires pre != "" && (forall c | c in pre :: IsPreChar(c)) && forall p | p in SplitDots(pre) :: CanonicalPart(p)
    ensures var ids := IdentifiersOf(SplitDots(pre));
      ids != [] && Joined(ids) == pre && forall id | id in ids :: ValidIdentifier(id)
  {
    hide CanonicalPart, SplitDots, Written, IdentifierOf, ValidIdentifier, Joined;
    var parts := SplitDots(pre);
    var ids := IdentifiersOf(parts);
    PartsWithin(pre);
    forall i | 0 <= i < |parts| ensures Written(ids[i]) == parts[i] && ValidIdentifier(ids[i]) {
      assert parts[i] in parts;
      PartWritten(parts[i]);
    }
    JoinedBack(ids, pre);
  }

  lemma NumberBack(digits: string)
    requires AllDigits(digits) && digits != "" && NoLeadingZero(digits)
    ensures Decimal(NumberOf(digits)) == digits
  {
    DecimalInverse(digits);
  }

  lemma CanonicalIsRendered(version: string)
    requires Captured(version).Some? && CanonicalText(version)
    ensures Valid(CapturedMeaning(version)) && Render(CapturedMeaning(version)) == version
  {
    var g := Captured(version).value;
    CapturedShape(version);
    hide Captured, SplitDots, Joined, ValidIdentifier, NumberOf, Decimal, IdentifiersOf, CanonicalPart, AllDigits, NoLeadingZero;
    NumberBack(g.major);
    NumberBack(g.minor);
    NumberBack(g.patch);
    if g.pre != "" { PreBack(g.pre); }
    var v := CapturedMeaning(version);
    assert PreText(v) == if g.pre == "" then "" else "-" + g.pre;
    assert Dotted(v.patch, PreText(v)) == "." + g.patch + PreText(v);
  }

  lemma RenderEnds(v: Version)
    requires Valid(v)
    ensures DropLineBreak(Render(v)) == Render(v)
  {
    hide Valid, PreText, Dotted;
    PreRead(v);
    DottedEnd("", v.patch, PreText(v));
    DottedEnd(Decimal(v.major), v.minor, Dotted(v.patch, PreText(v)));
  }

  lemma PartsCanonical(ids: seq<Identifier>)
    requires ids != [] && forall id | id in ids :: ValidIdentifier(id)
    ensures Joined(ids) != "" && forall p | p in SplitDots(Joined(ids)) :: CanonicalPart(p)
  {
    hide SplitDots, Joined, CanonicalPart, ValidIdentifier, Written;
    SplitJoined(ids);
    forall p | p in SplitDots(Joined(ids)) ensures CanonicalPart(p) {
      var i :| 0 <= i < |SplitDots(Joined(ids))| && SplitDots(Joined(ids))[i] == p;
      WrittenIsCanonical(ids[i]);
    }
  }

  lemma RenderedIsCanonical(v: Version)
    requires Valid(v)
    ensures Captured(Render(v)).Some? && CanonicalText(Render(v))
  {
    hide Captured, SplitDots, Joined, Decimal, NoLeadingZero, Render, DropLineBreak, CanonicalPart, ValidIdentifier;
    RenderCaptured(v);
    RenderEnds(v);
    DecimalHasNoLeadingZero(v.major);
    DecimalHasNoLeadingZero(v.minor);
    DecimalHasNoLeadingZero(v.patch);
    if v.pre != [] { PartsCanonical(v.pre); }
  }

  lemma WrittenIsCanonical(id: Identifier)
    requires ValidIdentifier(id)
    ensures CanonicalPart(Written(id))
  {
    if id.Numeric? {
      DecimalRoundTrip(id.n);
      DecimalHasNoLeadingZero(id.n);
    }
  }

  lemma NoFolding(fold: Fold, version: string)
    requires forall c | c in version[..CoreEnd(version)] :: fold(c) == c
    ensures Folded(fold, version) == version
  {
    var core := version[..CoreEnd(version)];
    assert forall i | 0 <= i < |core| :: core[i] in core;
    assert FoldAll(fold, core) == core;
  }

  /**
   The pattern takes a text that is no valid version exactly when a digit of its numbers is not in ASCII, a number
   has a leading zero, an identifier is empty, or a line break ends it.
   */
  lemma {:induction false} ValidTexts(fold: Fold, version: string)
    requires Matched(fold, version).Some?
    ensures Canonical(fold, version) <==> exists v :: Valid(v) && Render(v) == version
  {
    hide Captured, CanonicalText, Valid, Render, Folded, CapturedMeaning;
    if Canonical(fold, version) {
      NoFolding(fold, version);
      CanonicalIsRendered(version);
    }
    if v :| Valid(v) && Render(v) == version {
      RenderIsAscii(v);
      AsciiStays(fold, version);
      RenderedIsCanonical(v);
      CoreIsAscii(fold, version);
    }
  }

  lemma CoreIsAscii(fold: Fold, version: string)
    requires forall c | c in version :: c < '\U{80}'
    ensures forall c | c in version[..CoreEnd(version)] :: fold(c) == c
  {
    forall c | c in version[..CoreEnd(version)] ensures fold(c) == c {
      assert c in version;
    }
  }

  // ----- two texts, one version -----

  lemma {:induction false} ZeroInFront(digits: string)
    requires AllDigits(digits) && digits != ""
    ensures AllDigits("0" + digits) && ParseDecimal("0" + digits) == ParseDecimal(digits)
  {
    var front := digits[..|digits| - 1];
    assert forall c | c in front :: c in digits;
    assert ("0" + digits)[..|digits|] == "0" + front;
    if front == "" {
      assert ParseDecimal("0") == 0 by { assert "0"[..0] == ""; }
    } else {
      ZeroInFront(front);
    }
  }

  /** A zero before the first number makes another text that the pattern takes, with the same key. */
  lemma ZeroInFrontTies(fold: Fold, v: Version)
    requires Valid(v)
    ensures Matched(fold, Render(v)).Some? && Matched(fold, "0" + Render(v)).Some?
    ensures "0" + Render(v) != Render(v) && Key(fold, "0" + Render(v)) == Key(fold, Render(v))
  {
    hide Captured, CapturedKey, Render, Decimal, Dotted, Joined, Folded, Valid, ParseDecimal, SplitDots, SamePre;
    RenderMatches(fold, v);
    ZeroCaptured(v);
    RenderIsAscii(v);
    AsciiStays(fold, "0" + Render(v));
    DecimalRoundTrip(v.major);
    ZeroInFront(Decimal(v.major));
    SamePreItself(Matched(fold, Render(v)).value.pre);
    SameKey(fold, "0" + Render(v), Render(v));
  }

  lemma SamePreItself(p: string)
    ensures SamePre(p, p)
  {
  }

  lemma ZeroCaptured(v: Version)
    requires Valid(v)
    ensures Captured("0" + Render(v)) ==
      Some(Groups("0" + Decimal(v.major), Decimal(v.minor), Decimal(v.patch), if v.pre == [] then "" else Joined(v.pre)))
  {
    hide Decimal, Digits, DottedDigits, PreRelease, PreText, Joined, Valid, Dotted;
    PreRead(v);
    var c := Dotted(v.patch, PreText(v));
    var b := Dotted(v.minor, c);
    DottedEnd("", v.patch, PreText(v));
    DottedEnd("0" + Decimal(v.major), v.minor, c);
    DigitsRead(v.patch, PreText(v));
    DigitsRead(v.minor, c);
    assert "0" + Render(v) == ("0" + Decimal(v.major)) + b;
    assert Digits(("0" + Decimal(v.major)) + b) == Some(("0" + Decimal(v.major), b)) by { ZeroDigits(Decimal(v.major), b, v.major); }
    assert DropLineBreak("0" + Render(v)) == ("0" + Decimal(v.major)) + b;
  }

  lemma ZeroDigits(digits: string, more: string, n: nat)
    requires digits == Decimal(n) && (more == "" || !IsDigit(more[0]))
    ensures Digits(("0" + digits) + more) == Some(("0" + digits, more))
  {
    hide Decimal, ParseDecimal;
    DecimalRoundTrip(n);
    ZeroInFront(digits);
    DigitsThenMore("0" + digits, more);
    var all := ("0" + digits) + more;
    assert all[..|"0" + digits|] == "0" + digits && all[|"0" + digits|..] == more;
  }

  /** "1.0.0" and "01.0.0": two texts, taken both, with one key. */
  lemma OneAndZeroOne(fold: Fold)
    ensures Matched(fold, "1.0.0").Some? && Matched(fold, "01.0.0").Some? && "1.0.0" != "01.0.0"
    ensures Key(fold, "1.0.0") == Key(fold, "01.0.0")
  {
    var v := Version(1, 0, 0, []);
    assert Render(v) == "1.0.0";
    assert "0" + Render(v) == "01.0.0";
    ZeroInFrontTies(fold, v);
  }

  lemma {:induction false} FirstFolds(fold: Fold, c: char, s: string)
    requires s != "" && fold(c) == s[0] && fold(c) != c && forall d | d in s :: d < '\U{80}'
    ensures Folded(fold, [c] + s[1..]) == s
  {
    var other := [c] + s[1..];
    assert other[1..] == s[1..];
    var n := CoreEnd(s);
    assert CoreEnd(other) == n;
    assert forall i | 1 <= i < n :: s[i] in s && other[i] == s[i];
    assert FoldAll(fold, other[..n]) == s[..n];
    assert other[n..] == s[n..];
  }

  /** So does the same first digit of another script. */
  lemma OtherScriptTies(fold: Fold, v: Version, c: char)
    requires Valid(v) && Render(v) != "" && fold(c) == Render(v)[0] && fold(c) != c
    ensures var other := [c] + Render(v)[1..];
      Matched(fold, other).Some? && other != Render(v) && Key(fold, other) == Key(fold, Render(v))
  {
    RenderMatches(fold, v);
    RenderIsAscii(v);
    hide Captured, CapturedKey, Render, Folded, Valid;
    FirstFolds(fold, c, Render(v));
    AsciiStays(fold, Render(v));
  }

  /** The Arabic-Indic digit one: "\U{0661}.0.0" and "1.0.0" are taken both, with one key. */
  lemma OneInTwoScripts(fold: Fold)
    requires fold('\U{0661}') == '1'
    ensures Matched(fold, "1.0.0").Some? && Matched(fold, "\U{0661}.0.0").Some? && "1.0.0" != "\U{0661}.0.0"
    ensures Key(fold, "1.0.0") == Key(fold, "\U{0661}.0.0")
  {
    var v := Version(1, 0, 0, []);
    assert Render(v) == "1.0.0";
    assert ['\U{0661}'] + Render(v)[1..] == "\U{0661}.0.0";
    OneAndZeroOne(fold);
    OtherScriptTies(fold, v, '\U{0661}');
  }
}
