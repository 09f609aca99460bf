/** The expected-return label of an injured player: the `d/m/y` date string
    is split on `/`, each part read as a number, and the number of days until
    that date (an input here) chooses between a date, a day count and a week
    count. */
module Format {
  import opened Wrappers
  import opened Strings

  /** Three-letter month names, January first. */
  const Months: seq<string> := ["Jan", "Feb", "Mar", "Apr", "May", "Jun", "Jul", "Aug", "Sep", "Oct", "Nov", "Dec"]

  /** `MONTHS[m - 1]` rendered in a template: `"undefined"` outside 1..12. */
  function MonthName(m: nat): (r: string)
    ensures 1 <= m <= 12 ==> r == Months[m - 1] && |r| == 3
    ensures !(1 <= m <= 12) ==> r == "undefined"
  {
    if 1 <= m <= 12 then Months[m - 1] else "undefined"
  }

  /** `s.split(sep)`: the pieces between separators, empty pieces kept. */
  function Split(s: string, sep: char): (r: seq<string>)
    ensures |r| >= 1
    ensures forall i :: 0 <= i < |r| ==> sep !in r[i]
    decreases |s|
  {
    if |s| == 0 then [""]
    else
      var rest := Split(s[1..], sep);
      if s[0] == sep then [""] + rest
      else [[s[0]] + rest[0]] + rest[1..]
  }

  /** `parts.join(sep)`. */
  function Join(parts: seq<string>, sep: char): string
    requires |parts| >= 1
  {
    if |parts| == 1 then parts[0] else parts[0] + [sep] + Join(parts[1..], sep)
  }

  /** Joining the pieces of a split gives the string back. */
  lemma {:induction false} JoinSplit(s: string, sep: char)
    ensures Join(Split(s, sep), sep) == s
    decreases |s|
  {
    if |s| > 0 {
      var rest := Split(s[1..], sep);
      JoinSplit(s[1..], sep);
      if s[0] == sep {
        assert ([""] + rest)[1..] == rest;
        assert s == [sep] + s[1..];
      } else if |rest| == 1 {
        assert s == [s[0]] + s[1..];
      } else {
        var r := [[s[0]] + rest[0]] + rest[1..];
        assert r[1..] == rest[1..];
        assert Join(rest, sep) == rest[0] + [sep] + Join(rest[1..], sep);
        assert s == [s[0]] + s[1..];
      }
    }
  }

  /** A piece without the separator, then the separator, splits off as one piece. */
  lemma {:induction false} SplitPrefix(a: string, t: string, sep: char)
    requires sep !in a
    ensures Split(a + [sep] + t, sep) == [a] + Split(t, sep)
    decreases |a|
  {
    var s := a + [sep] + t;
    if |a| == 0 {
      assert s == [sep] + t;
      assert s[1..] == t;
    } else {
      assert s[0] == a[0];
      assert s[1..] == a[1..] + [sep] + t;
      assert a[0] in a;
      SplitPrefix(a[1..], t, sep);
      assert [a[0]] + a[1..] == a;
    }
  }

  /** A string without the separator splits into itself. */
  lemma {:induction false} SplitNoSeparator(a: string, sep: char)
    requires sep !in a
    ensures Split(a, sep) == [a]
    decreases |a|
  {
    if |a| > 0 {
      assert a[0] in a;
      assert forall c :: c in a[1..] ==> c in a;
      SplitNoSeparator(a[1..], sep);
      assert [a[0]] + a[1..] == a;
    }
  }

  /** Splitting a join of separator-free pieces gives the pieces back. */
  lemma {:induction false} SplitJoin(parts: seq<string>, sep: char)
    requires |parts| >= 1
    requires forall i :: 0 <= i < |parts| ==> sep !in parts[i]
    ensures Split(Join(parts, sep), sep) == parts
  {
    if |parts| == 1 {
      SplitNoSeparator(parts[0], sep);
    } else {
      SplitJoin(parts[1..], sep);
      SplitPrefix(parts[0], Join(parts[1..], sep), sep);
      assert [parts[0]] + parts[1..] == parts;
    }
  }

  predicate AllDigits(s: string) {
    forall i :: 0 <= i < |s| ==> IsDigit(s[i])
  }

  /** `Number(s)` on the strings a date part can be: surrounding whitespace is
      ignored, blank reads as 0, a run of decimal digits as its value, and
      anything else as NaN (`None`). */
  function ToNumber(s: string): (r: Option<nat>)
    ensures Trim(s) == "" ==> r == Some(0)
    ensures r.Some? && Trim(s) != "" ==> AllDigits(Trim(s)) && r.value == DigitsValue(Trim(s))
    ensures Trim(s) != "" && !AllDigits(Trim(s)) ==> r.None?
  {
    var t := Trim(s);
    if t == "" then Some(0)
    else if AllDigits(t) then Some(DigitsValue(t))
    else None
  }

  /** A rendered number reads back as itself. */
  lemma ToNumberRoundTrip(n: nat)
    ensures ToNumber(NatToString(n)) == Some(n)
  {
    var s := NatToString(n);
    TrimNoWhitespace(s);
    NatToStringRoundTrip(n);
  }

  /** The `i`-th part as a number; a missing part is `undefined`, which reads as NaN. */
  function PartNumber(parts: seq<string>, i: nat): Option<nat> {
    if i < |parts| then ToNumber(parts[i]) else None
  }

  /** A positive number: `Number(part)` is truthy. */
  predicate Truthy(v: Option<nat>) {
    v.Some? && v.value != 0
  }

  /** Day, month and year read from `d/m/y`: none for the empty string, or when
      any of the three is missing, zero or not a number; parts past the third
      are ignored. */
  function ParseDate(dateStr: string): (r: Option<(nat, nat, nat)>)
    ensures dateStr == "" ==> r.None?
    ensures r.Some? ==> r.value.0 > 0 && r.value.1 > 0 && r.value.2 > 0
    ensures r.Some? <==> dateStr != "" && |Split(dateStr, '/')| >= 3
                         && Truthy(ToNumber(Split(dateStr, '/')[0]))
                         && Truthy(ToNumber(Split(dateStr, '/')[1]))
                         && Truthy(ToNumber(Split(dateStr, '/')[2]))
    ensures r.Some? ==> r.value == (ToNumber(Split(dateStr, '/')[0]).value,
                                    ToNumber(Split(dateStr, '/')[1]).value,
                                    ToNumber(Split(dateStr, '/')[2]).value)
  {
    if dateStr == "" then None
    else
      var parts := Split(dateStr, '/');
      var d := PartNumber(parts, 0);
      var m := PartNumber(parts, 1);
      var y := PartNumber(parts, 2);
      if Truthy(d) && Truthy(m) && Truthy(y) then Some((d.value, m.value, y.value)) else None
  }

  /** A date written as `d/m/y` with positive numbers parses back to them. */
  lemma ParseDateRoundTrip(d: nat, m: nat, y: nat)
    requires d > 0 && m > 0 && y > 0
    ensures ParseDate(NatToString(d) + "/" + NatToString(m) + "/" + NatToString(y)) == Some((d, m, y))
  {
    var parts := [NatToString(d), NatToString(m), NatToString(y)];
    var dateStr := NatToString(d) + "/" + NatToString(m) + "/" + NatToString(y);
    assert parts[1..] == [NatToString(m), NatToString(y)];
    assert parts[1..][1..] == [NatToString(y)];
    assert Join([NatToString(y)], '/') == NatToString(y);
    assert Join(parts[1..], '/') == NatToString(m) + ['/'] + NatToString(y);
    assert Join(parts, '/') == NatToString(d) + ['/'] + (NatToString(m) + ['/'] + NatToString(y));
    assert Join(parts, '/') == dateStr;
    SplitJoin(parts, '/');
    ToNumberRoundTrip(d);
    ToNumberRoundTrip(m);
    ToNumberRoundTrip(y);
  }

  /** `Math.ceil(days / 7)` for positive `days`. */
  function Weeks(days: int): (w: int)
    requires days > 0
    ensures 7 * (w - 1) < days <= 7 * w
  {
    (days + 6) / 7
  }

  /** The `{ label, imminent }` result; `label` is a reserved word here, so the field is `text`. */
  datatype ReturnInfo = ReturnInfo(text: string, imminent: bool)

  /** `formatReturnInfo`: null when the date does not parse; otherwise the
      date (`Mon d`) when it is today or past, `{days}d` up to two weeks away,
      `~{weeks}w` up to sixty days, and the date again beyond that. The return
      is imminent exactly up to fourteen days. */
  function FormatReturnInfo(dateStr: string, days: int): (r: Option<ReturnInfo>)
    ensures r.Some? <==> ParseDate(dateStr).Some?
    ensures r.Some? ==> (r.value.imminent <==> days <= 14)
    ensures r.Some? ==>
              var dmy := ParseDate(dateStr).value;
              var date := MonthName(dmy.1) + " " + NatToString(dmy.0);
              && (days <= 0 ==> r.value.text == date)
              && (1 <= days <= 14 ==> r.value.text == NatToString(days) + "d")
              && (15 <= days <= 60 ==> r.value.text == "~" + NatToString(Weeks(days)) + "w"
                                       && 3 <= Weeks(days) <= 9)
              && (days > 60 ==> r.value.text == date)
  {
    match ParseDate(dateStr)
    case None => None
    case Some((d, m, _)) =>
      var date := MonthName(m) + " " + NatToString(d);
      if days <= 0 then Some(ReturnInfo(date, true))
      else if days <= 14 then Some(ReturnInfo(NatToString(days) + "d", true))
      else if days <= 60 then Some(ReturnInfo("~" + NatToString(Weeks(days)) + "w", false))
      else Some(ReturnInfo(date, false))
  }
}
