/**
 * The relative-time decoder of FListApiClient.parseDate: the pattern
 * `dateRegex` read as a scanner of seven optional digit groups, and the
 * subtraction of the amounts it finds from the current instant through the
 * UTC setters of a Date.
 *
 * The pattern is not anchored and every part of it is optional, so its first
 * match always starts at index 0. Every part tries its group before skipping
 * it and nothing after can fail, so the match takes each group that is there,
 * in the order y, mo, w, d, h, m, s; `\d+` takes the whole run of digits, and
 * a group is there when that run is followed by its tag, compared without
 * regard to ASCII case. The first six groups may be followed by a comma and
 * one white-space character.
 */
module RelativeTime {
  import opened Wrappers
  import opened Calendar

  // ---- characters ----

  predicate IsDigit(c: char) { '0' <= c <= '9' }

  function DigitValue(c: char): nat
    requires IsDigit(c)
  {
    c as int - '0' as int
  }

  function DigitChar(d: nat): (c: char)
    requires d < 10
    ensures IsDigit(c) && DigitValue(c) == d
  {
    ('0' as int + d) as char
  }

  /** The case folding of the `i` flag on ASCII letters; no other character folds onto an ASCII one. */
  function ToLowerAscii(c: char): char {
    if 'A' <= c <= 'Z' then (c as int + 32) as char else c
  }

  /** `\s`: white space and line terminators. */
  predicate IsRegExpSpace(c: char) {
    c == '\t' || c == '\n' || c == '\U{000B}' || c == '\U{000C}' || c == '\r' || c == ' ' ||
    c == '\U{00A0}' || c == '\U{1680}' || ('\U{2000}' <= c <= '\U{200A}') ||
    c == '\U{2028}' || c == '\U{2029}' || c == '\U{202F}' || c == '\U{205F}' ||
    c == '\U{3000}' || c == '\U{FEFF}'
  }

  // ---- decimal numbers ----

  predicate AllDigits(s: string) {
    forall i :: 0 <= i < |s| ==> IsDigit(s[i])
  }

  /** The length of the run of digits that `s` starts with: what `\d+` takes, greedily. */
  function LeadingDigits(s: string): (n: nat)
    ensures n <= |s| && AllDigits(s[..n])
    ensures n < |s| ==> !IsDigit(s[n])
  {
    if |s| > 0 && IsDigit(s[0]) then
      var n := 1 + LeadingDigits(s[1..]);
      assert s[..n] == [s[0]] + s[1..][..n - 1];
      n
    else 0
  }

  /** parseInt(ds, 10) of a string of digits, leading zeros included. */
  function DecimalValue(ds: string): (v: nat)
    requires AllDigits(ds)
    ensures ds != [] && ds[0] == '0' ==> v == DecimalValue(ds[1..])
  {
    if |ds| == 0 then 0
    else
      var init := ds[..|ds| - 1];
      assert init != [] ==> init[1..] == ds[1..][..|ds| - 2];
      10 * DecimalValue(init) + DigitValue(ds[|ds| - 1])
  }

  /** The shortest decimal numeral of `n`. */
  function Decimal(n: nat): (ds: string)
    ensures |ds| > 0 && AllDigits(ds)
  {
    if n < 10 then [DigitChar(n)] else Decimal(n / 10) + [DigitChar(n % 10)]
  }

  lemma {:induction false} DecimalRoundTrip(n: nat)
    ensures DecimalValue(Decimal(n)) == n
  {
    if n >= 10 {
      DecimalRoundTrip(n / 10);
      var ds := Decimal(n);
      assert ds[..|ds| - 1] == Decimal(n / 10);
    }
  }

  // ---- the scanner ----

  /** Whether `s` starts with `tag`, letters compared without regard to ASCII case. */
  predicate StartsWithTag(s: string, tag: string) {
    |tag| <= |s| && forall i :: 0 <= i < |tag| ==> ToLowerAscii(s[i]) == tag[i]
  }

  /** `(?:,\s)?`: a comma followed by one white-space character, if it is there. */
  function SkipSeparator(s: string): string {
    if |s| >= 2 && s[0] == ',' && IsRegExpSpace(s[1]) then s[2..] else s
  }

  /** What one optional group read, and the text after it. */
  datatype Capture = Capture(amount: Option<nat>, rest: string)

  /**
   * `(?:(\d+)tag(?:,\s)?)?` at the start of `s`, the separator only when
   * `separated`. Where the group is not there, nothing is consumed.
   */
  function Group(s: string, tag: string, separated: bool): (c: Capture)
    ensures c.amount.None? ==> c.rest == s
  {
    var n := LeadingDigits(s);
    if n > 0 && StartsWithTag(s[n..], tag) then
      var after := s[n + |tag|..];
      Capture(Some(DecimalValue(s[..n])), if separated then SkipSeparator(after) else after)
    else Capture(None, s)
  }

  /** The tags of the seven groups, in the order the pattern tries them. */
  const Tags: seq<string> := ["y", "mo", "w", "d", "h", "m", "s"]

  /** The groups from the `i`-th on, read one after the other from the start of `s`. */
  function ScanFrom(s: string, i: nat): (amounts: seq<Option<nat>>)
    requires i <= |Tags|
    ensures |amounts| == |Tags| - i
    decreases |Tags| - i
  {
    if i == |Tags| then []
    else
      var c := Group(s, Tags[i], i + 1 < |Tags|);
      [c.amount] + ScanFrom(c.rest, i + 1)
  }

  /** The seven capture groups of `dateRegex`; None where the group did not take part. */
  datatype Span = Span(years: Option<nat>, months: Option<nat>, weeks: Option<nat>, days: Option<nat>,
                       hours: Option<nat>, minutes: Option<nat>, seconds: Option<nat>)

  function Amounts(g: Span): (a: seq<Option<nat>>)
    ensures |a| == |Tags|
  {
    [g.years, g.months, g.weeks, g.days, g.hours, g.minutes, g.seconds]
  }

  /** `str.match(dateRegex)`, groups 1 to 7. */
  function Scan(s: string): Span
  {
    var a := ScanFrom(s, 0);
    Span(a[0], a[1], a[2], a[3], a[4], a[5], a[6])
  }

  // ---- the format the scanner reads ----

  /** The text between a group and what follows it: ", " where `sep` asks for it and the pattern allows one. */
  function Joint(sep: bool, i: nat): string {
    if sep && i + 1 < |Tags| then ", " else ""
  }

  /**
   * The groups from the `i`-th on as text; `seps` says, group by group, whether
   * its separator is written (the last group has none).
   */
  function FormatFrom(a: seq<Option<nat>>, seps: seq<bool>, i: nat): string
    requires i <= |Tags| && |a| == |Tags| - i && |seps| == |a|
    decreases |Tags| - i
  {
    if i == |Tags| then ""
    else
      var tail := FormatFrom(a[1..], seps[1..], i + 1);
      match a[0]
      case None => tail
      case Some(n) => Decimal(n) + Tags[i] + Joint(seps[0], i) + tail
  }

  /** A span written out, such as "1y, 2mo, 3d" or "1y2mo3d". */
  function Format(g: Span, seps: seq<bool>): string
    requires |seps| == |Tags|
  {
    FormatFrom(Amounts(g), seps, 0)
  }

  /** Text that cannot continue a match: no digit, no comma, and no `o` that would turn an `m` group into `mo`. */
  predicate EndsMatch(rest: string) {
    rest == [] || (!IsDigit(rest[0]) && rest[0] != ',' && ToLowerAscii(rest[0]) != 'o')
  }

  lemma {:induction false} LeadingDigitsOfNumeral(ds: string, t: string)
    requires AllDigits(ds)
    requires t == [] || !IsDigit(t[0])
    ensures LeadingDigits(ds + t) == |ds|
  {
    if ds != [] {
      assert (ds + t)[1..] == ds[1..] + t;
      LeadingDigitsOfNumeral(ds[1..], t);
    } else {
      assert ds + t == t;
    }
  }

  /** A tag: a non-empty run of lower-case text that does not start with a digit. */
  predicate IsTag(tag: string) {
    |tag| > 0 && !IsDigit(tag[0]) && forall k :: 0 <= k < |tag| ==> ToLowerAscii(tag[k]) == tag[k]
  }

  lemma TagsAreTags(i: nat)
    requires i < |Tags|
    ensures IsTag(Tags[i])
  {
  }

  /** Of the tags, only "m" starts the way an earlier one ("mo") does, and it is shorter. */
  lemma TagsDiffer(i: nat, j: nat)
    requires i < j < |Tags|
    ensures Tags[i][0] != Tags[j][0] || (i == 1 && j == 5 && Tags[i] == "mo" && Tags[j] == "m")
  {
  }

  lemma StartsWithOwnTag(tag: string, after: string)
    requires IsTag(tag)
    ensures StartsWithTag(tag + after, tag)
  {
    assert forall k :: 0 <= k < |tag| ==> (tag + after)[k] == tag[k];
  }

  /** A group reads the numeral and tag that it finds. */
  lemma GroupReads(n: nat, tag: string, separated: bool, after: string)
    requires IsTag(tag)
    ensures Group(Decimal(n) + tag + after, tag, separated)
         == Capture(Some(n), if separated then SkipSeparator(after) else after)
  {
    var ds := Decimal(n);
    var s := ds + tag + after;
    assert s == ds + (tag + after);
    LeadingDigitsOfNumeral(ds, tag + after);
    assert s[..|ds|] == ds;
    assert s[|ds|..] == tag + after;
    StartsWithOwnTag(tag, after);
    assert s[|ds| + |tag|..] == after;
    DecimalRoundTrip(n);
  }

  /** A group finds nothing where no digits lead, or where its tag does not follow them. */
  lemma GroupMisses(ds: string, t: string, tag: string, separated: bool)
    requires AllDigits(ds) && (t == [] || !IsDigit(t[0])) && (ds == [] || !StartsWithTag(t, tag))
    ensures Group(ds + t, tag, separated).amount == None
  {
    LeadingDigitsOfNumeral(ds, t);
    assert (ds + t)[|ds|..] == t;
  }

  /** The text of a later group does not start with the tag of an earlier one. */
  lemma LaterTag(i: nat, j: nat, x: string)
    requires i < j < |Tags|
    requires j == 5 ==> x == [] || ToLowerAscii(x[0]) != 'o'
    ensures !StartsWithTag(Tags[j] + x, Tags[i])
  {
    TagsDiffer(i, j);
    if i == 1 && j == 5 && |x| > 0 {
      assert (Tags[j] + x)[1] == x[0];
    }
  }

  lemma Associative(x: string, y: string, z: string)
    ensures x + y + z == x + (y + z)
  {
  }

  /** The text of the groups from the `j`-th on, followed by `rest`, when the `j`-th group is there. */
  lemma FormatFromSome(a: seq<Option<nat>>, seps: seq<bool>, j: nat, rest: string)
    requires j < |Tags| && |a| == |Tags| - j && |seps| == |a| && a[0].Some?
    ensures var tail := FormatFrom(a[1..], seps[1..], j + 1);
            FormatFrom(a, seps, j) + rest == Decimal(a[0].value) + (Tags[j] + (Joint(seps[0], j) + (tail + rest)))
  {
    var tail := FormatFrom(a[1..], seps[1..], j + 1);
    var ds, sep := Decimal(a[0].value), Joint(seps[0], j);
    Associative(ds + Tags[j] + sep, tail, rest);
    Associative(ds + Tags[j], sep, tail + rest);
    Associative(ds, Tags[j], sep + (tail + rest));
  }

  /** Written groups start with a digit. */
  lemma {:induction false} FormatFromStart(a: seq<Option<nat>>, seps: seq<bool>, j: nat)
    requires j <= |Tags| && |a| == |Tags| - j && |seps| == |a|
    ensures FormatFrom(a, seps, j) == "" || IsDigit(FormatFrom(a, seps, j)[0])
    decreases |Tags| - j
  {
    if j < |Tags| {
      if a[0].None? {
        FormatFromStart(a[1..], seps[1..], j + 1);
      } else {
        var tail := FormatFrom(a[1..], seps[1..], j + 1);
        FormatFromSome(a, seps, j, "");
        assert FormatFrom(a, seps, j) + "" == FormatFrom(a, seps, j);
        assert FormatFrom(a, seps, j)[0] == Decimal(a[0].value)[0];
      }
    }
  }

  /** What follows a written group, up to the text of the next one, cannot turn an `m` into `mo`, nor is it a comma unless it is the separator. */
  lemma AfterGroup(a: seq<Option<nat>>, seps: seq<bool>, j: nat, rest: string)
    requires j < |Tags| && |a| == |Tags| - j && |seps| == |a| && EndsMatch(rest)
    ensures var x := FormatFrom(a[1..], seps[1..], j + 1) + rest;
            (x == [] || (ToLowerAscii(x[0]) != 'o' && x[0] != ','))
  {
    var tail := FormatFrom(a[1..], seps[1..], j + 1);
    FormatFromStart(a[1..], seps[1..], j + 1);
    if tail == "" {
      assert tail + rest == rest;
    } else {
      assert (tail + rest)[0] == tail[0];
    }
  }

  /** A group finds nothing where a later group's text, or text that ends the match, begins. */
  lemma {:induction false} GroupSkips(a: seq<Option<nat>>, seps: seq<bool>, j: nat, i: nat, rest: string)
    requires i < j <= |Tags| && |a| == |Tags| - j && |seps| == |a| && EndsMatch(rest)
    ensures Group(FormatFrom(a, seps, j) + rest, Tags[i], i + 1 < |Tags|).amount == None
    decreases |Tags| - j
  {
    if j == |Tags| {
      assert FormatFrom(a, seps, j) + rest == [] + rest;
      GroupMisses([], rest, Tags[i], i + 1 < |Tags|);
    } else if a[0].None? {
      GroupSkips(a[1..], seps[1..], j + 1, i, rest);
    } else {
      var tail := FormatFrom(a[1..], seps[1..], j + 1);
      var x := Joint(seps[0], j) + (tail + rest);
      FormatFromSome(a, seps, j, rest);
      TagsAreTags(j);
      if j == 5 && Joint(seps[0], j) == "" {
        AfterGroup(a, seps, j, rest);
        assert x == tail + rest;
      }
      LaterTag(i, j, x);
      GroupMisses(Decimal(a[0].value), Tags[j] + x, Tags[i], i + 1 < |Tags|);
    }
  }

  /** The `i`-th group reads what the text of `a` writes for it, and leaves the text of the groups after it. */
  lemma GroupOfFormat(a: seq<Option<nat>>, seps: seq<bool>, i: nat, rest: string)
    requires i < |Tags| && |a| == |Tags| - i && |seps| == |a| && EndsMatch(rest)
    ensures Group(FormatFrom(a, seps, i) + rest, Tags[i], i + 1 < |Tags|)
         == Capture(a[0], FormatFrom(a[1..], seps[1..], i + 1) + rest)
  {
    if a[0].None? {
      GroupSkips(a[1..], seps[1..], i + 1, i, rest);
    } else {
      GroupOfFormatSome(a, seps, i, rest);
    }
  }

  lemma GroupOfFormatSome(a: seq<Option<nat>>, seps: seq<bool>, i: nat, rest: string)
    requires i < |Tags| && |a| == |Tags| - i && |seps| == |a| && EndsMatch(rest) && a[0].Some?
    ensures Group(FormatFrom(a, seps, i) + rest, Tags[i], i + 1 < |Tags|)
         == Capture(a[0], FormatFrom(a[1..], seps[1..], i + 1) + rest)
  {
    var tail := FormatFrom(a[1..], seps[1..], i + 1);
    var after := Joint(seps[0], i) + (tail + rest);
    FormatFromSome(a, seps, i, rest);
    Associative(Decimal(a[0].value), Tags[i], after);
    TagsAreTags(i);
    GroupReads(a[0].value, Tags[i], i + 1 < |Tags|, after);
    SeparatorTaken(a, seps, i, rest);
  }

  /** The optional separator after a written group takes exactly the ", " written there. */
  lemma SeparatorTaken(a: seq<Option<nat>>, seps: seq<bool>, i: nat, rest: string)
    requires i < |Tags| && |a| == |Tags| - i && |seps| == |a| && EndsMatch(rest)
    ensures var tail := FormatFrom(a[1..], seps[1..], i + 1);
            var after := Joint(seps[0], i) + (tail + rest);
            (if i + 1 < |Tags| then SkipSeparator(after) else after) == tail + rest
  {
    var tail := FormatFrom(a[1..], seps[1..], i + 1);
    var after := Joint(seps[0], i) + (tail + rest);
    if Joint(seps[0], i) == "" {
      assert after == tail + rest;
      AfterGroup(a, seps, i, rest);
    } else {
      assert after[2..] == tail + rest;
    }
  }

  /** Reading the text of `a` from its `i`-th group on gives `a` back. */
  lemma {:induction false} ScanFormatFrom(a: seq<Option<nat>>, seps: seq<bool>, i: nat, rest: string)
    requires i <= |Tags| && |a| == |Tags| - i && |seps| == |a| && EndsMatch(rest)
    ensures ScanFrom(FormatFrom(a, seps, i) + rest, i) == a
    decreases |Tags| - i
  {
    if i < |Tags| {
      GroupOfFormat(a, seps, i, rest);
      ScanFormatFrom(a[1..], seps[1..], i + 1, rest);
      assert a == [a[0]] + a[1..];
    }
  }

  /**
   * The scanner reads back any span however it is written, with or without
   * the separator after each group, whatever follows it, as long as that text
   * cannot continue the match.
   */
  lemma ScanFormat(g: Span, seps: seq<bool>, rest: string)
    requires |seps| == |Tags| && EndsMatch(rest)
    ensures Scan(Format(g, seps) + rest) == g
  {
    ScanFormatFrom(Amounts(g), seps, 0, rest);
  }

  /** Groups the text does not start with take no part, and leave the text to the groups after them. */
  lemma {:induction false} MissesBefore(s: string, i: nat, j: nat)
    requires i <= j <= |Tags|
    requires forall k :: i <= k < j ==> Group(s, Tags[k], k + 1 < |Tags|).amount.None?
    ensures forall k :: 0 <= k < j - i ==> ScanFrom(s, i)[k].None?
    ensures ScanFrom(s, i)[j - i..] == ScanFrom(s, j)
    decreases j - i
  {
    if i < j {
      MissesBefore(s, i + 1, j);
      assert ScanFrom(s, i) == [None] + ScanFrom(s, i + 1);
    }
  }

  /** Some group, from the `i`-th on, takes part when the `k`-th would read the start of the text. */
  lemma {:induction false} SomeGroupReads(s: string, i: nat, k: nat)
    requires i <= k < |Tags| && Group(s, Tags[k], k + 1 < |Tags|).amount.Some?
    ensures exists m :: 0 <= m < |Tags| - i && ScanFrom(s, i)[m].Some?
    decreases k - i
  {
    if Group(s, Tags[i], i + 1 < |Tags|).amount.Some? {
      assert ScanFrom(s, i)[0].Some?;
    } else {
      SomeGroupReads(s, i + 1, k);
      var m :| 0 <= m < |Tags| - (i + 1) && ScanFrom(s, i + 1)[m].Some?;
      assert ScanFrom(s, i)[m + 1] == ScanFrom(s, i + 1)[m];
    }
  }

  /** The text starts with a numeral followed by one of the seven tags. */
  predicate StartsWithGroup(s: string) {
    var n := LeadingDigits(s);
    n > 0 && exists i :: 0 <= i < |Tags| && StartsWithTag(s[n..], Tags[i])
  }

  /** The span with no group at all: the empty match. */
  const NoGroups: Span := Span(None, None, None, None, None, None, None)

  /**
   * The match is empty, so that every group is missing, exactly when the text
   * does not start with digits followed by a tag: "", "x5d", "5x", "12" or
   * "3 days" all read nothing.
   */
  lemma ScanFindsNothing(s: string)
    ensures Scan(s) == NoGroups <==> !StartsWithGroup(s)
  {
    GroupsFindNothing(s);
    EmptySpan(ScanFrom(s, 0));
  }

  /** A span lists its seven amounts in the order of the pattern. */
  lemma SpanOfAmounts(a: seq<Option<nat>>)
    requires |a| == |Tags|
    ensures Amounts(Span(a[0], a[1], a[2], a[3], a[4], a[5], a[6])) == a
  {
  }

  lemma EmptySpan(a: seq<Option<nat>>)
    requires |a| == |Tags|
    ensures Span(a[0], a[1], a[2], a[3], a[4], a[5], a[6]) == NoGroups <==> forall k :: 0 <= k < |Tags| ==> a[k].None?
  {
  }

  /** Every group misses exactly when the text does not start with digits and a tag. */
  lemma GroupsFindNothing(s: string)
    ensures (forall k :: 0 <= k < |Tags| ==> ScanFrom(s, 0)[k].None?) <==> !StartsWithGroup(s)
  {
    var n := LeadingDigits(s);
    if StartsWithGroup(s) {
      var k :| 0 <= k < |Tags| && StartsWithTag(s[n..], Tags[k]);
      SomeGroupReads(s, 0, k);
    } else {
      forall k | 0 <= k < |Tags|
        ensures Group(s, Tags[k], k + 1 < |Tags|).amount.None?
      {
        assert !(n > 0 && StartsWithTag(s[n..], Tags[k]));
      }
      MissesBefore(s, 0, |Tags|);
    }
  }

  /**
   * A group written before an earlier one in the pattern order hides that
   * earlier one: text starting with the `j`-th group reads it, and reads no
   * group before it ("2d, 1y" has days but no years). The text after the tag
   * may only not turn an `m` into `mo`.
   */
  lemma OutOfOrder(n: nat, j: nat, after: string)
    requires j < |Tags| && (j == 5 ==> after == [] || ToLowerAscii(after[0]) != 'o')
    ensures var a := ScanFrom(Decimal(n) + Tags[j] + after, 0);
            a[j] == Some(n) && forall i :: 0 <= i < j ==> a[i].None?
  {
    var s := Decimal(n) + Tags[j] + after;
    TagsAreTags(j);
    forall i | 0 <= i < j
      ensures Group(s, Tags[i], i + 1 < |Tags|).amount.None?
    {
      LaterTag(i, j, after);
      Associative(Decimal(n), Tags[j], after);
      GroupMisses(Decimal(n), Tags[j] + after, Tags[i], i + 1 < |Tags|);
    }
    MissesBefore(s, 0, j);
    GroupReads(n, Tags[j], j + 1 < |Tags|, after);
    assert ScanFrom(s, 0)[j] == ScanFrom(s, j)[0];
  }

  /** "2d, 1y" reads two days and no year. */
  lemma OutOfOrderExample()
    ensures Scan("2d, 1y").days == Some(2) && Scan("2d, 1y").years == None
  {
    assert Decimal(2) + Tags[3] + ", 1y" == "2d, 1y";
    OutOfOrder(2, 3, ", 1y");
    SpanOfAmounts(ScanFrom("2d, 1y", 0));
  }

  // ---- case-insensitivity ----

  function Lower(s: string): (r: string)
    ensures |r| == |s| && forall i :: 0 <= i < |s| ==> r[i] == ToLowerAscii(s[i])
  {
    seq(|s|, i requires 0 <= i < |s| => ToLowerAscii(s[i]))
  }

  lemma LowerSuffix(s: string, k: nat)
    requires k <= |s|
    ensures Lower(s)[k..] == Lower(s[k..])
  {
  }

  lemma {:induction false} LowerLeadingDigits(s: string)
    ensures LeadingDigits(Lower(s)) == LeadingDigits(s)
  {
    if |s| > 0 && IsDigit(s[0]) {
      LowerSuffix(s, 1);
      LowerLeadingDigits(s[1..]);
    }
  }

  lemma LowerDigits(s: string, n: nat)
    requires n <= |s| && AllDigits(s[..n])
    ensures Lower(s)[..n] == s[..n]
  {
    assert forall k :: 0 <= k < n ==> IsDigit(s[..n][k]);
  }

  lemma LowerStartsWithTag(t: string, tag: string)
    ensures StartsWithTag(Lower(t), tag) == StartsWithTag(t, tag)
  {
  }

  lemma LowerSkipSeparator(t: string)
    ensures SkipSeparator(Lower(t)) == Lower(SkipSeparator(t))
  {
    if |t| >= 2 && t[0] == ',' && IsRegExpSpace(t[1]) {
      LowerSuffix(t, 2);
    }
  }

  /** One group reads the same amount from a text and from its lower-case form, and leaves the lower-case form of what it leaves. */
  lemma LowerGroup(s: string, tag: string, separated: bool)
    ensures Group(Lower(s), tag, separated) == Capture(Group(s, tag, separated).amount, Lower(Group(s, tag, separated).rest))
  {
    var n := LeadingDigits(s);
    LowerLeadingDigits(s);
    LowerSuffix(s, n);
    LowerStartsWithTag(s[n..], tag);
    if n > 0 && StartsWithTag(s[n..], tag) {
      LowerDigits(s, n);
      LowerSuffix(s, n + |tag|);
      LowerSkipSeparator(s[n + |tag|..]);
    }
  }

  lemma {:induction false} LowerScanFrom(s: string, i: nat)
    requires i <= |Tags|
    ensures ScanFrom(Lower(s), i) == ScanFrom(s, i)
    decreases |Tags| - i
  {
    if i < |Tags| {
      LowerGroup(s, Tags[i], i + 1 < |Tags|);
      LowerScanFrom(Group(s, Tags[i], i + 1 < |Tags|).rest, i + 1);
    }
  }

  /** The `i` flag: the groups found do not depend on the case of ASCII letters. */
  lemma ScanIgnoresCase(s: string)
    ensures Scan(Lower(s)) == Scan(s)
  {
    LowerScanFrom(s, 0);
  }

  // ---- subtracting the amounts ----

  /** A capture as the `if` tests it: parseInt of a missing group is NaN, and NaN and 0 both skip the step. */
  function Amount(o: Option<nat>): nat {
    if o.None? then 0 else o.value
  }

  /** A getter's result less `n`; NaN stays NaN. */
  function Minus(x: Num, n: nat): (r: Num)
    ensures r.NaN? <==> x.NaN?
    ensures r.Num? ==> r.value + n == x.value
  {
    if x.NaN? then NaN else Num(x.value - n)
  }

  function LessYears(t: Num, n: nat): Num {
    if n == 0 then t else WithUTCFullYear(t, Minus(UTCFullYear(t), n))
  }

  function LessMonths(t: Num, n: nat): Num {
    if n == 0 then t else WithUTCMonth(t, Minus(UTCMonth(t), n))
  }

  function LessWeeks(t: Num, n: nat): Num {
    if n == 0 then t else WithUTCDate(t, Minus(UTCDate(t), n * 7))
  }

  function LessDays(t: Num, n: nat): Num {
    if n == 0 then t else WithUTCDate(t, Minus(UTCDate(t), n))
  }

  function LessHours(t: Num, n: nat): Num {
    if n == 0 then t else WithUTCHours(t, Minus(UTCHours(t), n))
  }

  function LessMinutes(t: Num, n: nat): Num {
    if n == 0 then t else WithUTCMinutes(t, Minus(UTCMinutes(t), n))
  }

  function LessSeconds(t: Num, n: nat): Num {
    if n == 0 then t else WithUTCSeconds(t, Minus(UTCSeconds(t), n))
  }

  /** The seven steps of parseDate, each on the date the previous one left. */
  function Subtract(g: Span, t: Num): Num {
    var t1 := LessYears(t, Amount(g.years));
    var t2 := LessMonths(t1, Amount(g.months));
    var t3 := LessWeeks(t2, Amount(g.weeks));
    var t4 := LessDays(t3, Amount(g.days));
    var t5 := LessHours(t4, Amount(g.hours));
    var t6 := LessMinutes(t5, Amount(g.minutes));
    LessSeconds(t6, Amount(g.seconds))
  }

  /** A group that reads 0 changes nothing, just like a missing one: only the amounts count. */
  lemma ZeroGroupsSkip(g: Span, h: Span, t: Num)
    requires Amount(g.years) == Amount(h.years) && Amount(g.months) == Amount(h.months)
    requires Amount(g.weeks) == Amount(h.weeks) && Amount(g.days) == Amount(h.days)
    requires Amount(g.hours) == Amount(h.hours) && Amount(g.minutes) == Amount(h.minutes)
    requires Amount(g.seconds) == Amount(h.seconds)
    ensures Subtract(g, t) == Subtract(h, t)
    ensures Amount(Some(0)) == Amount(None)
  {
  }

  /** The time value of parseDate(str) when the clock reads `now`. */
  function ParseDateValue(str: string, now: int): Num {
    Subtract(Scan(str), Num(now))
  }

  /** FListApiClient.parseDate: a new Date at `now`, then one setter call per group present and non-zero. */
  method ParseDate(str: string, now: int) returns (date: Date)
    requires InTimeRange(now)
    ensures fresh(date)
    ensures date.time == ParseDateValue(str, now)
  {
    date := new Date(now);
    var g := Scan(str);
    var years, months, weeks, days := Amount(g.years), Amount(g.months), Amount(g.weeks), Amount(g.days);
    var hours, minutes, seconds := Amount(g.hours), Amount(g.minutes), Amount(g.seconds);
    if years != 0 {
      date.SetUTCFullYear(Minus(date.GetUTCFullYear(), years));
    }
    if months != 0 {
      date.SetUTCMonth(Minus(date.GetUTCMonth(), months));
    }
    if weeks != 0 {
      date.SetUTCDate(Minus(date.GetUTCDate(), weeks * 7));
    }
    if days != 0 {
      date.SetUTCDate(Minus(date.GetUTCDate(), days));
    }
    if hours != 0 {
      date.SetUTCHours(Minus(date.GetUTCHours(), hours));
    }
    if minutes != 0 {
      date.SetUTCMinutes(Minus(date.GetUTCMinutes(), minutes));
    }
    if seconds != 0 {
      date.SetUTCSeconds(Minus(date.GetUTCSeconds(), seconds));
    }
  }

  // ---- what the steps do ----

  /** Text that does not start with digits followed by a tag leaves the clock's instant as it is. */
  lemma ParseDateWithoutGroup(str: string, now: int)
    requires !StartsWithGroup(str)
    ensures ParseDateValue(str, now) == Num(now)
  {
    ScanFindsNothing(str);
  }

  // Each fixed-length step, applied to a clipped value no later than the
  // latest valid instant, subtracts its length in milliseconds and clips again.

  lemma LessWeeksExact(v: int, n: nat)
    requires v <= MaxTimeValue
    ensures LessWeeks(TimeClip(v), n) == TimeClip(v - n * 604_800_000)
  {
    if InTimeRange(v) && n != 0 {
      DateSetterShift(v, n * 7);
      assert n * 7 * MsPerDay == n * 604_800_000;
    }
  }

  lemma LessDaysExact(v: int, n: nat)
    requires v <= MaxTimeValue
    ensures LessDays(TimeClip(v), n) == TimeClip(v - n * 86_400_000)
  {
    if InTimeRange(v) && n != 0 {
      DateSetterShift(v, n);
    }
  }

  lemma LessHoursExact(v: int, n: nat)
    requires v <= MaxTimeValue
    ensures LessHours(TimeClip(v), n) == TimeClip(v - n * 3_600_000)
  {
    if InTimeRange(v) && n != 0 {
      HourSetterShift(v, n);
    }
  }

  lemma LessMinutesExact(v: int, n: nat)
    requires v <= MaxTimeValue
    ensures LessMinutes(TimeClip(v), n) == TimeClip(v - n * 60_000)
  {
    if InTimeRange(v) && n != 0 {
      MinuteSetterShift(v, n);
    }
  }

  lemma LessSecondsExact(v: int, n: nat)
    requires v <= MaxTimeValue
    ensures LessSeconds(TimeClip(v), n) == TimeClip(v - n * 1_000)
  {
    if InTimeRange(v) && n != 0 {
      SecondSetterShift(v, n);
    }
  }

  /** The five fixed-length steps, one after the other, from a value no later than the latest valid instant. */
  lemma FixedSteps(v: int, w: nat, d: nat, h: nat, m: nat, s: nat)
    requires v <= MaxTimeValue
    ensures LessSeconds(LessMinutes(LessHours(LessDays(LessWeeks(TimeClip(v), w), d), h), m), s)
         == TimeClip(v - (((7 * w + d) * 86400 + h * 3600 + m * 60 + s) * 1000))
  {
    var v3 := v - w * 604_800_000;
    var v4 := v3 - d * 86_400_000;
    var v5 := v4 - h * 3_600_000;
    var v6 := v5 - m * 60_000;
    LessWeeksExact(v, w);
    LessDaysExact(v3, d);
    LessHoursExact(v4, h);
    LessMinutesExact(v5, m);
    LessSecondsExact(v6, s);
  }

  /**
   * Without a year or month group the result is the instant the weeks, days,
   * hours, minutes and seconds add up to before `now`, or NaN when that is out
   * of range.
   */
  lemma FixedDurations(str: string, now: int)
    requires InTimeRange(now)
    requires Amount(Scan(str).years) == 0 && Amount(Scan(str).months) == 0
    ensures var g := Scan(str);
            var seconds := (7 * Amount(g.weeks) + Amount(g.days)) * 86400
                         + Amount(g.hours) * 3600 + Amount(g.minutes) * 60 + Amount(g.seconds);
            ParseDateValue(str, now) == TimeClip(now - seconds * 1000)
  {
    var g := Scan(str);
    assert TimeClip(now) == Num(now);
    FixedSteps(now, Amount(g.weeks), Amount(g.days), Amount(g.hours), Amount(g.minutes), Amount(g.seconds));
  }

  /** The year step goes back 12 months for each year, by the calendar. */
  lemma {:induction false} LessYearsByCalendar(t: int, n: nat)
    requires n > 0
    ensures LessYears(Num(t), n) == TimeClip(MonthsEarlier(t, 12 * n))
  {
    YearSetterShift(t, n);
  }

  /** The month step goes back `n` months by the calendar. */
  lemma {:induction false} LessMonthsByCalendar(t: int, n: nat)
    requires n > 0
    ensures LessMonths(Num(t), n) == TimeClip(MonthsEarlier(t, n))
  {
    MonthSetterShift(t, n);
  }

  /**
   * A month step keeps the day of the month when the month it lands in is
   * long enough, and otherwise runs the surplus days into the month after.
   */
  lemma MonthStepDate(t: int, n: nat)
    requires n > 0 && InTimeRange(MonthsEarlier(t, n))
    ensures var k := MonthIndexFromDay(Day(t));
            var r := LessMonths(Num(t), n);
            r.Num? &&
            if DateFromTime(t) <= DaysInMonth(k - n) then
              MonthIndexFromDay(Day(r.value)) == k - n && DateFromTime(r.value) == DateFromTime(t)
            else
              MonthIndexFromDay(Day(r.value)) == k - n + 1 &&
              DateFromTime(r.value) == DateFromTime(t) - DaysInMonth(k - n)
  {
    LessMonthsByCalendar(t, n);
    var k := MonthIndexFromDay(Day(t));
    if DateFromTime(t) <= DaysInMonth(k - n) {
      MonthsEarlierSameDate(t, n);
    } else {
      MonthsEarlierOverflow(t, n);
    }
  }

  /** A value that is NaN or no later than `bound`. */
  predicate NotAfter(t: Num, bound: int) {
    t.NaN? || t.value <= bound
  }

  // No step moves a date later: each goes back by whole units, or yields NaN.

  lemma LessYearsNotLater(t: Num, n: nat, bound: int)
    requires NotAfter(t, bound)
    ensures NotAfter(LessYears(t, n), bound)
  {
    if t.Num? && n > 0 {
      LessYearsByCalendar(t.value, n);
      MonthsEarlierNotLater(t.value, 12 * n);
    }
  }

  lemma LessMonthsNotLater(t: Num, n: nat, bound: int)
    requires NotAfter(t, bound)
    ensures NotAfter(LessMonths(t, n), bound)
  {
    if t.Num? && n > 0 {
      LessMonthsByCalendar(t.value, n);
      MonthsEarlierNotLater(t.value, n);
    }
  }

  lemma LessWeeksNotLater(t: Num, n: nat, bound: int)
    requires NotAfter(t, bound)
    ensures NotAfter(LessWeeks(t, n), bound)
  {
    if t.Num? && n > 0 {
      DateSetterShift(t.value, n * 7);
    }
  }

  lemma LessDaysNotLater(t: Num, n: nat, bound: int)
    requires NotAfter(t, bound)
    ensures NotAfter(LessDays(t, n), bound)
  {
    if t.Num? && n > 0 {
      DateSetterShift(t.value, n);
    }
  }

  lemma LessHoursNotLater(t: Num, n: nat, bound: int)
    requires NotAfter(t, bound)
    ensures NotAfter(LessHours(t, n), bound)
  {
    if t.Num? && n > 0 {
      HourSetterShift(t.value, n);
    }
  }

  lemma LessMinutesNotLater(t: Num, n: nat, bound: int)
    requires NotAfter(t, bound)
    ensures NotAfter(LessMinutes(t, n), bound)
  {
    if t.Num? && n > 0 {
      MinuteSetterShift(t.value, n);
    }
  }

  lemma LessSecondsNotLater(t: Num, n: nat, bound: int)
    requires NotAfter(t, bound)
    ensures NotAfter(LessSeconds(t, n), bound)
  {
    if t.Num? && n > 0 {
      SecondSetterShift(t.value, n);
    }
  }

  /** parseDate never yields an instant later than `now`. */
  lemma ParseDateNotLater(str: string, now: int)
    ensures NotAfter(ParseDateValue(str, now), now)
  {
    var g := Scan(str);
    var t1 := LessYears(Num(now), Amount(g.years));
    var t2 := LessMonths(t1, Amount(g.months));
    var t3 := LessWeeks(t2, Amount(g.weeks));
    var t4 := LessDays(t3, Amount(g.days));
    var t5 := LessHours(t4, Amount(g.hours));
    var t6 := LessMinutes(t5, Amount(g.minutes));
    LessYearsNotLater(Num(now), Amount(g.years), now);
    LessMonthsNotLater(t1, Amount(g.months), now);
    LessWeeksNotLater(t2, Amount(g.weeks), now);
    LessDaysNotLater(t3, Amount(g.days), now);
    LessHoursNotLater(t4, Amount(g.hours), now);
    LessMinutesNotLater(t5, Amount(g.minutes), now);
    LessSecondsNotLater(t6, Amount(g.seconds), now);
  }
}
