/** The If-Match header of a write: the revision the client started from. */
module IfMatch {
  import opened Prelude

  predicate IsDigit(c: char) { '0' <= c <= '9' }

  function DigitChar(d: nat): char
    requires d < 10
  {
    '0' + d as char
  }

  function Decimal(n: nat): string {
    if n < 10 then [DigitChar(n)] else Decimal(n / 10) + [DigitChar(n % 10)]
  }

  predicate AllDigits(s: string) { forall c | c in s :: IsDigit(c) }

  function ParseDecimal(s: string): nat
    requires AllDigits(s)
  {
    if s == "" then 0 else
      var last := s[|s| - 1];
      assert IsDigit(last);
      ParseDecimal(s[..|s| - 1]) * 10 + (last as nat - '0' as nat)
  }

  /** The characters str.strip() removes, among those a header can hold (Latin-1). */
  predicate IsSpace(c: char) {
    '\t' <= c <= '\r' || '\U{1C}' <= c <= ' ' || c == '\U{85}' || c == '\U{A0}'
  }

  function StripLeft(s: string): string {
    if s != "" && IsSpace(s[0]) then StripLeft(s[1..]) else s
  }

  function StripRight(s: string): string {
    if s != "" && IsSpace(s[|s| - 1]) then StripRight(s[..|s| - 1]) else s
  }

  function Strip(s: string): string { StripRight(StripLeft(s)) }

  function ETag(revision: nat): string { "\"r" + Decimal(revision) + "\"" }

  function DropWeak(s: string): string {
    if "W/" <= s then s[2..] else s
  }

  /** True of a quoted revision, "r" and at least one digit. */
  predicate IsRevisionTag(s: string) {
    && |s| >= 4 && s[0] == '"' && s[1] == 'r' && s[|s| - 1] == '"'
    && AllDigits(s[2..|s| - 1])
  }

  /** None is "*", create; an error is the 412 reply to a missing or malformed header. */
  function Match(header: Option<string>): Result<Option<nat>, ()> {
    if header.None? || header.value == "" then Err(()) else
      var value := Strip(header.value);
      if value == "*" then Ok(None) else
        var tag := DropWeak(value);
        if IsRevisionTag(tag) then Ok(Some(ParseDecimal(tag[2..|tag| - 1]))) else Err(())
  }

  lemma {:induction false} DecimalRoundTrip(n: nat)
    ensures Decimal(n) != "" && AllDigits(Decimal(n))
    ensures ParseDecimal(Decimal(n)) == n
  {
    if n >= 10 {
      DecimalRoundTrip(n / 10);
      var front := Decimal(n / 10);
      assert Decimal(n)[..|front|] == front;
    }
  }

  /** Blank characters, as a header may have around its value. */
  predicate Blank(s: string) { forall c | c in s :: IsSpace(c) }

  lemma {:induction false} StripPadded(left: string, s: string, right: string)
    requires Blank(left) && Blank(right)
    requires s != "" && !IsSpace(s[0]) && !IsSpace(s[|s| - 1])
    ensures Strip(left + s + right) == s
  {
    StripLeftPadded(left, s + right);
    assert left + s + right == left + (s + right);
    StripRightPadded(s, right);
  }

  lemma {:induction false} StripLeftPadded(left: string, s: string)
    requires Blank(left) && s != "" && !IsSpace(s[0])
    ensures StripLeft(left + s) == s
  {
    if left == "" {
      assert left + s == s;
    } else {
      assert (left + s)[1..] == left[1..] + s;
      assert forall c | c in left[1..] :: c in left;
      StripLeftPadded(left[1..], s);
    }
  }

  lemma {:induction false} StripRightPadded(s: string, right: string)
    requires Blank(right) && s != "" && !IsSpace(s[|s| - 1])
    ensures StripRight(s + right) == s
  {
    if right == "" {
      assert s + right == s;
    } else {
      var front := right[..|right| - 1];
      assert (s + right)[..|s + right| - 1] == s + front;
      assert forall c | c in front :: c in right;
      StripRightPadded(s, front);
    }
  }

  lemma ETagIsTag(revision: nat)
    ensures var tag := ETag(revision); IsRevisionTag(tag) && tag[2..|tag| - 1] == Decimal(revision) && tag[0] == '"'
  {
    hide Decimal, ParseDecimal;
    DecimalRoundTrip(revision);
    var tag := ETag(revision);
    assert tag[2..|tag| - 1] == Decimal(revision);
  }

  lemma WeakTag(tag: string, weak: bool)
    requires tag != "" && tag[0] == '"' && tag[|tag| - 1] == '"'
    ensures var value := (if weak then "W/" else "") + tag;
      DropWeak(value) == tag && value != "" && value != "*" && !IsSpace(value[0]) && !IsSpace(value[|value| - 1])
  {
    var value := (if weak then "W/" else "") + tag;
    assert value[|value| - 1] == '"';
    if weak { assert value[2..] == tag; } else { assert value == tag; }
  }

  /** The ETag of a read, sent back bare, weak or padded, names the revision that was read. */
  lemma MatchReadsETag(revision: nat, left: string, weak: bool, right: string)
    requires Blank(left) && Blank(right)
    ensures Match(Some(left + (if weak then "W/" else "") + ETag(revision) + right)) == Ok(Some(revision))
  {
    hide ParseDecimal, Decimal, ETag, Strip, DropWeak, IsSpace, Blank;
    DecimalRoundTrip(revision);
    ETagIsTag(revision);
    var tag := ETag(revision);
    WeakTag(tag, weak);
    var value := (if weak then "W/" else "") + tag;
    StripPadded(left, value, right);
    assert left + (if weak then "W/" else "") + tag + right == left + value + right;
  }

  lemma {:induction false} StripShape(s: string) returns (left: string, right: string)
    ensures Blank(left) && Blank(right) && s == left + Strip(s) + right
  {
    if s != "" && IsSpace(s[0]) {
      left, right := StripShape(s[1..]);
      left := [s[0]] + left;
    } else if s != "" && IsSpace(s[|s| - 1]) {
      var l, r := StripShape(s[..|s| - 1]);
      assert StripLeft(s[..|s| - 1]) == s[..|s| - 1];
      left, right := l, r + [s[|s| - 1]];
      assert s == s[..|s| - 1] + [s[|s| - 1]];
    } else {
      left, right := "", "";
    }
  }

  /** A header is read as a revision only when it has exactly the shape an ETag has. */
  lemma MatchOnlyETags(header: string) returns (left: string, weak: bool, digits: string, right: string)
    requires Match(Some(header)).Ok? && Match(Some(header)).value.Some?
    ensures Blank(left) && Blank(right) && digits != "" && AllDigits(digits)
    ensures header == left + ((if weak then "W/" else "") + ("\"r" + digits + "\"")) + right
    ensures Match(Some(header)).value.value == ParseDecimal(digits)
  {
    left, right := StripShape(header);
    var value := Strip(header);
    weak := "W/" <= value;
    var tag := DropWeak(value);
    digits := tag[2..|tag| - 1];
    assert tag == "\"r" + digits + "\"";
    assert value == (if weak then "W/" else "") + tag;
  }

  ghost predicate Padded(header: string, left: string, core: string, right: string) {
    Blank(left) && Blank(right) && header == left + core + right
  }

  function TagText(weak: bool, digits: string): string { (if weak then "W/" else "") + ("\"r" + digits + "\"") }

  /** "*", in any blanks. */
  ghost predicate IsStar(header: string) { exists left, right :: Padded(header, left, "*", right) }

  /** A quoted revision, weak or not, in any blanks. */
  ghost predicate IsTag(header: string) {
    exists left, weak, digits, right :: Padded(header, left, TagText(weak, digits), right) && IsRevisionTag(TagText(false, digits))
  }

  lemma TagTextReads(left: string, weak: bool, digits: string, right: string)
    requires Blank(left) && Blank(right) && digits != "" && AllDigits(digits)
    ensures Match(Some(left + TagText(weak, digits) + right)) == Ok(Some(ParseDecimal(digits)))
  {
    hide ParseDecimal, Strip, IsSpace, Blank;
    var tag := TagText(false, digits);
    assert tag == "\"r" + digits + "\"";
    assert tag[2..|tag| - 1] == digits;
    WeakTag(tag, weak);
    StripPadded(left, TagText(weak, digits), right);
  }

  /**
   Every header there is: "*" in blanks creates, a quoted revision in blanks is read as one, and a header of
   any other shape, or none, is the 412 reply.
   */
  lemma MatchIs(header: string)
    ensures Match(Some(header)) == Ok(None) <==> IsStar(header)
    ensures Match(Some(header)).Ok? && Match(Some(header)).value.Some? <==> IsTag(header)
    ensures Match(None).Err?
  {
    hide ParseDecimal, IsSpace, Blank;
    if Match(Some(header)) == Ok(None) {
      var left, right := StripShape(header);
      assert Padded(header, left, "*", right);
    }
    if IsStar(header) {
      var left, right :| Padded(header, left, "*", right);
      StarAlone();
      StripPadded(left, "*", right);
    }
    if Match(Some(header)).Ok? && Match(Some(header)).value.Some? {
      var left, weak, digits, right := MatchOnlyETags(header);
      TagShape(digits);
      assert Padded(header, left, TagText(weak, digits), right);
    }
    if IsTag(header) {
      var left, weak, digits, right :| Padded(header, left, TagText(weak, digits), right) && IsRevisionTag(TagText(false, digits));
      TagShape(digits);
      TagTextReads(left, weak, digits, right);
    }
  }

  lemma StarAlone()
    ensures !IsSpace("*"[0])
  {
  }

  lemma TagShape(digits: string)
    ensures IsRevisionTag(TagText(false, digits)) <==> digits != "" && AllDigits(digits)
  {
    var tag := TagText(false, digits);
    assert tag == "\"r" + digits + "\"";
    assert tag[2..|tag| - 1] == digits;
  }
}
