/** The records of an IRTECON file and the parsers for its single-line
    fields: the axis descriptor line, the `HH:MM:SS DD-Mon-YYYY` timestamp,
    the duration pair, the legend and one row of curve data. Numeric fields
    use a decimal comma, which is turned into a point before conversion. */
module IrteconRecords {
  import opened Results
  import opened PyStrings
  import opened PyNumbers

  /** A naive date and time, as `datetime` holds it. */
  datatype DateTime = DateTime(year: int, month: int, day: int, hour: int, minute: int, second: int)

  /** One line of the axis description block. */
  datatype Axis = Axis(axis: int, min: real, max: real, unit: string, name: string)

  /** One curve: when it was taken, the signed duration, its legend label and
      its sample rows. */
  datatype Curve = Curve(time: DateTime, duration: real, legendKey: string, data: seq<seq<real>>)

  /** `datetime.fromtimestamp(0)` taken in UTC. */
  const Epoch := DateTime(1970, 1, 1, 0, 0, 0)

  /** `IRTECONAxis('')` */
  const DefaultAxis := Axis(0, 0.0, 1.0, "", "")

  /** `IRTECONCurve()`: epoch time, zero duration, empty legend, no rows. */
  const EmptyCurve := Curve(Epoch, 0.0, "", [])

  const MonthNames: seq<string> := ["Jan", "Feb", "Mar", "Apr", "May", "Jun", "Jul", "Aug", "Sep", "Oct", "Nov", "Dec"]

  /** Decimal-comma normalisation: every `,` becomes `.`. */
  function CommaToPoint(s: string): string {
    Replace(s, ',', '.')
  }

  /** `float(text.replace(',', '.'))` */
  function ParseDecimal(text: string): Option<real> {
    ParseFloat(CommaToPoint(text))
  }

  // ---------------------------------------------------------------------
  // Axis descriptor

  /** The positional unit/name rule: exactly ten words name the axis with
      the tenth; more than ten give the tenth as unit and the rest, joined by
      single spaces, as name; fewer leave both empty. */
  function UnitAndName(words: seq<string>): (string, string) {
    if |words| == 10 then ("", words[9])
    else if |words| > 10 then (words[9], Join(words[10..], " "))
    else ("", "")
  }

  /** `IRTECONAxis(line)`: the empty line gives the default axis; otherwise
      words 0, 1 and 2 are the axis number, minimum and maximum. */
  function ParseAxis(line: string): Option<Axis>
  {
    if line == "" then Some(DefaultAxis)
    else
      var words := Words(line);
      if |words| < 3 then None
      else
        match (ParseInt(words[0]), ParseDecimal(words[1]), ParseDecimal(words[2]))
        case (Some(axis), Some(lo), Some(hi)) =>
          var (unit, name) := UnitAndName(words);
          Some(Axis(axis, lo, hi, unit, name))
        case _ => None
  }

  /** The axis line rule: words 0, 1 and 2 must convert, the unit and name
      follow the word count, and the empty line gives the default axis. */
  lemma {:induction false} ParseAxisSpec(line: string)
    ensures line == "" ==> ParseAxis(line) == Some(DefaultAxis)
    ensures line != "" ==>
      (ParseAxis(line).Some? <==>
        && |Words(line)| >= 3
        && ParseInt(Words(line)[0]).Some?
        && ParseDecimal(Words(line)[1]).Some?
        && ParseDecimal(Words(line)[2]).Some?)
    ensures line != "" && ParseAxis(line).Some? ==>
      var words := Words(line);
      var a := ParseAxis(line).value;
      && Some(a.axis) == ParseInt(words[0])
      && Some(a.min) == ParseDecimal(words[1])
      && Some(a.max) == ParseDecimal(words[2])
      && (|words| == 10 ==> a.unit == "" && a.name == words[9])
      && (|words| > 10 ==> a.unit == words[9] && a.name == Join(words[10..], " ") && Words(a.name) == words[10..])
      && (|words| < 10 ==> a.unit == "" && a.name == "")
  {
    var words := Words(line);
    if line != "" && |words| > 10 {
      WordsSpec(line);
      assert AllWords(words[10..]);
      WordsOfJoin(words[10..]);
    }
  }

  // ---------------------------------------------------------------------
  // Timestamp

  /** 1 + the position of `name` in the month table. */
  function MonthNumber(name: string): (m: Option<int>)
    ensures m.Some? ==> 1 <= m.value <= 12 && MonthNames[m.value - 1] == name
    ensures m.None? ==> name !in MonthNames
  {
    MonthFromNone(name, 0);
    MonthFrom(name, 0)
  }

  function MonthFrom(name: string, i: nat): (m: Option<int>)
    requires i <= 12
    ensures m.Some? ==> i + 1 <= m.value <= 12 && MonthNames[m.value - 1] == name
    decreases 12 - i
  {
    if i == 12 then None
    else if MonthNames[i] == name then Some(i + 1)
    else MonthFrom(name, i + 1)
  }

  /** The lookup fails only for names that are not in the table. */
  lemma {:induction false} MonthFromNone(name: string, i: nat)
    requires i <= 12
    ensures MonthFrom(name, i).None? ==> forall j :: i <= j < 12 ==> MonthNames[j] != name
    decreases 12 - i
  {
    if i < 12 && MonthNames[i] != name {
      MonthFromNone(name, i + 1);
    }
  }

  /** Every month abbreviation is a word without `-` or `:`. */
  lemma MonthNameIsWord(m: int)
    requires 1 <= m <= 12
    ensures IsWord(MonthNames[m - 1]) && '-' !in MonthNames[m - 1]
  {
    var n := MonthNames[m - 1];
    assert |n| == 3;
    assert forall i :: 0 <= i < 3 ==> 'A' <= n[i] <= 'z';
  }

  predicate IsLeapYear(y: int) {
    y % 4 == 0 && (y % 100 != 0 || y % 400 == 0)
  }

  function DaysInMonth(y: int, m: int): int
    requires 1 <= m <= 12
  {
    if m == 2 then (if IsLeapYear(y) then 29 else 28)
    else if m == 4 || m == 6 || m == 9 || m == 11 then 30
    else 31
  }

  /** The ranges the `datetime` constructor accepts. */
  predicate ValidDateTime(t: DateTime) {
    && 1 <= t.year <= 9999
    && 1 <= t.month <= 12
    && 1 <= t.day <= DaysInMonth(t.year, t.month)
    && 0 <= t.hour <= 23
    && 0 <= t.minute <= 59
    && 0 <= t.second <= 59
  }

  /** `H:M:S` as three integers: `tuple(map(int, time.split(':')))`
      unpacked into exactly three names. */
  function ParseClock(time: string): Option<(int, int, int)> {
    var parts := SplitOn(time, ':');
    if |parts| != 3 then None
    else
      match ParseInt(parts[0])
      case None => None
      case Some(hour) =>
        match ParseInt(parts[1])
        case None => None
        case Some(minute) =>
          match ParseInt(parts[2])
          case None => None
          case Some(second) => Some((hour, minute, second))
  }

  /** `D-Mon-Y` as day, month number and year; the month is looked up by
      its abbreviation. */
  function ParseCalendarDate(date: string): (r: Option<(int, int, int)>)
    ensures r.Some? ==> 1 <= r.value.1 <= 12
  {
    var parts := SplitOn(date, '-');
    if |parts| != 3 then None
    else
      match ParseInt(parts[0])
      case None => None
      case Some(day) =>
        match MonthNumber(parts[1])
        case None => None
        case Some(month) =>
          match ParseInt(parts[2])
          case None => None
          case Some(year) => Some((day, month, year))
  }

  /** `parse_date(text)`: the text splits once at whitespace into a time
      `H:M:S` and a date `D-Mon-Y`; fails on a wrong piece count, a
      non-integer, an unknown month or a date `datetime` rejects. */
  function ParseDate(text: string): (r: Option<DateTime>)
    ensures r.Some? ==> ValidDateTime(r.value)
  {
    var halves := SplitOnce(text);
    if |halves| != 2 then None
    else
      match ParseClock(halves[0])
      case None => None
      case Some((hour, minute, second)) =>
        match ParseCalendarDate(halves[1])
        case None => None
        case Some((day, month, year)) =>
          var t := DateTime(year, month, day, hour, minute, second);
          if ValidDateTime(t) then Some(t) else None
  }

  /** `parse_date` reads `t` exactly from a text whose first whitespace
      splits it into a clock and a date: the clock's three `:` fields are
      the integers hour, minute and second of `t`, the date's three `-`
      fields are its day, the abbreviation of its month and its year, and
      `t` is a date and time `datetime` accepts. */
  lemma ParseDateSpec(text: string, t: DateTime)
    ensures ParseDate(text) == Some(t) <==>
      && |SplitOnce(text)| == 2
      && ClockFields(SplitOnce(text)[0], t)
      && DateFields(SplitOnce(text)[1], t)
      && ValidDateTime(t)
  {
    var halves := SplitOnce(text);
    if |halves| == 2 {
      ParseClockSpec(halves[0], t);
      ParseCalendarDateFields(halves[1], t);
    }
  }

  /** The `:` fields of `time` are the integers of `t`'s time of day. */
  predicate ClockFields(time: string, t: DateTime) {
    var fields := SplitOn(time, ':');
    && |fields| == 3
    && ParseInt(fields[0]) == Some(t.hour)
    && ParseInt(fields[1]) == Some(t.minute)
    && ParseInt(fields[2]) == Some(t.second)
  }

  /** The `-` fields of `date` are `t`'s day, month abbreviation and year. */
  predicate DateFields(date: string, t: DateTime) {
    var fields := SplitOn(date, '-');
    && |fields| == 3
    && 1 <= t.month <= 12
    && ParseInt(fields[0]) == Some(t.day)
    && fields[1] == MonthNames[t.month - 1]
    && ParseInt(fields[2]) == Some(t.year)
  }

  /** The clock half of `parse_date` in terms of its fields. */
  lemma ParseClockSpec(time: string, t: DateTime)
    ensures ParseClock(time) == Some((t.hour, t.minute, t.second)) <==> ClockFields(time, t)
  {
  }

  /** The date half of `parse_date` in terms of its fields: the month is
      the one whose abbreviation is the middle field. */
  lemma ParseCalendarDateFields(date: string, t: DateTime)
    ensures ParseCalendarDate(date) == Some((t.day, t.month, t.year)) <==> DateFields(date, t)
  {
    if DateFields(date, t) {
      MonthNumberOfName(t.month);
    }
  }

  /** The month of a calendar date is the place of its abbreviation in the
      month table, and an unknown abbreviation fails. */
  lemma ParseCalendarDateSpec(date: string)
    ensures ParseCalendarDate(date).Some? ==>
      && |SplitOn(date, '-')| == 3
      && MonthNames[ParseCalendarDate(date).value.1 - 1] == SplitOn(date, '-')[1]
      && Some(ParseCalendarDate(date).value.0) == ParseInt(SplitOn(date, '-')[0])
      && Some(ParseCalendarDate(date).value.2) == ParseInt(SplitOn(date, '-')[2])
    ensures |SplitOn(date, '-')| == 3 && SplitOn(date, '-')[1] !in MonthNames ==> ParseCalendarDate(date).None?
  {
  }

  /** The `datetime` built from clock fields `(h, m, s)` and date fields
      `(d, mon, y)`. */
  function DateOf(clock: (int, int, int), date: (int, int, int)): DateTime {
    DateTime(date.2, date.1, date.0, clock.0, clock.1, clock.2)
  }

  /** Two-digit field, zero-padded. */
  function Pad2(n: nat): string {
    if n < 10 then "0" + NatToString(n) else NatToString(n)
  }

  /** The timestamp as the instrument writes it, `HH:MM:SS DD-Mon-YYYY`. */
  function FormatDate(t: DateTime): string
    requires ValidDateTime(t)
  {
    Join([Pad2(t.hour), Pad2(t.minute), Pad2(t.second)], ":") + " "
      + Join([Pad2(t.day), MonthNames[t.month - 1], NatToString(t.year)], "-")
  }

  // ---------------------------------------------------------------------
  // Duration, legend and data rows

  /** `sum(x * (2 * i - 1) for i, x in enumerate(xs))`, the enumeration
      starting at `i`: the first value counted negative, the next positive,
      every later one with a growing odd weight. */
  function WeightedSum(xs: seq<real>, i: nat): real
    decreases |xs|
  {
    if |xs| == 0 then 0.0 else xs[0] * ((2 * i - 1) as real) + WeightedSum(xs[1..], i + 1)
  }

  /** Zero, one or two weighted values: `0`, `-a`, `-a + b`. */
  lemma WeightedSumOfFew(xs: seq<real>)
    requires |xs| <= 2
    ensures |xs| == 0 ==> WeightedSum(xs, 0) == 0.0
    ensures |xs| == 1 ==> WeightedSum(xs, 0) == -xs[0]
    ensures |xs| == 2 ==> WeightedSum(xs, 0) == -xs[0] + xs[1]
  {
    if |xs| == 1 {
      assert WeightedSum(xs[1..], 1) == 0.0;
    } else if |xs| == 2 {
      assert xs[1..][1..] == [];
      assert WeightedSum(xs[1..], 1) == xs[1] * 1.0 + WeightedSum(xs[1..][1..], 2);
    }
  }

  /** The duration of a `#START Time:` line from the text after the marker:
      the decimal-comma numbers of its at most two tokens, weighted. */
  function ParseDuration(text: string): Option<real> {
    match MapAll(ParseDecimal, SplitOnce(text))
    case Some(xs) => Some(WeightedSum(xs, 0))
    case None => None
  }

  /** The duration of zero, one or two tokens: `0`, `-t0`, `-t0 + t1`. */
  lemma ParseDurationSpec(text: string)
    ensures |SplitOnce(text)| == 0 ==> ParseDuration(text) == Some(0.0)
    ensures |SplitOnce(text)| == 1 ==>
      (ParseDuration(text).Some? <==> ParseDecimal(SplitOnce(text)[0]).Some?)
      && (ParseDuration(text).Some? ==> ParseDuration(text).value == -ParseDecimal(SplitOnce(text)[0]).value)
    ensures |SplitOnce(text)| == 2 ==>
      (ParseDuration(text).Some? <==> ParseDecimal(SplitOnce(text)[0]).Some? && ParseDecimal(SplitOnce(text)[1]).Some?)
      && (ParseDuration(text).Some? ==>
            ParseDuration(text).value == -ParseDecimal(SplitOnce(text)[0]).value + ParseDecimal(SplitOnce(text)[1]).value)
  {
    var tokens := SplitOnce(text);
    MapAllSpec(ParseDecimal, tokens);
    match MapAll(ParseDecimal, tokens) {
      case Some(xs) => WeightedSumOfFew(xs);
      case None =>
    }
  }

  /** `line.split(':', maxsplit=1)[-1]`: the text after the first colon, or
      the whole line when it has none. */
  function LegendKey(line: string): (r: string)
    ensures |r| <= |line|
  {
    var k := IndexOf(line, ':');
    if k == |line| then line else line[k + 1..]
  }

  /** The legend is the text after the first colon, or the whole line. */
  lemma LegendKeySpec(line: string)
    ensures ':' !in line ==> LegendKey(line) == line
    ensures ':' in line ==>
      var r := LegendKey(line);
      && |r| < |line|
      && line == line[..|line| - |r| - 1] + ":" + r
      && ':' !in line[..|line| - |r| - 1]
  {
    var k := IndexOf(line, ':');
    IndexOfSpec(line, ':');
    assert k < |line| ==> line == line[..k] + ":" + line[k + 1..];
  }

  /** One data row: `list(map(float, line.replace(',', '.').split()))`.
      Normalising the whole line before splitting is the same as normalising
      every token, so the row has one number per token of the line. */
  function ParseRow(line: string): Option<seq<real>> {
    MapAll(ParseFloat, Words(CommaToPoint(line)))
  }

  /** Normalising the whole line before splitting is the same as normalising
      every token, so a row has one number per token of the line, each the
      decimal-comma conversion of that token. */
  lemma {:induction false} ParseRowSpec(line: string)
    ensures ParseRow(line).Some? <==> forall i :: 0 <= i < |Words(line)| ==> ParseDecimal(Words(line)[i]).Some?
    ensures ParseRow(line).Some? ==> |ParseRow(line).value| == |Words(line)|
    ensures ParseRow(line).Some? ==>
      forall i :: 0 <= i < |Words(line)| ==> ParseDecimal(Words(line)[i]) == Some(ParseRow(line).value[i])
  {
    WordsOfReplace(line, ',', '.');
    assert forall i :: 0 <= i < |Words(line)| ==> Words(CommaToPoint(line))[i] == CommaToPoint(Words(line)[i]);
    MapAllSpec(ParseFloat, Words(CommaToPoint(line)));
  }

  // ---------------------------------------------------------------------
  // Lemmas

  lemma ParseIntOfPad2(n: nat)
    ensures ParseInt(Pad2(n)) == Some(n)
    ensures |Pad2(n)| > 0 && AllDigits(Pad2(n))
  {
    if n < 10 {
      LeadingZero(NatToString(n));
      ParseIntOfDigits(Pad2(n));
    } else {
      ParseIntOfDigits(Pad2(n));
    }
  }

  lemma DigitsAreWord(s: string)
    requires |s| > 0 && AllDigits(s)
    ensures IsWord(s)
  {
  }

  /** The month number of an abbreviation is its place in the table. */
  lemma MonthNumberOfName(m: int)
    requires 1 <= m <= 12
    ensures MonthNumber(MonthNames[m - 1]) == Some(m)
  {
    MonthFromOfName(m, 0);
  }

  /** The abbreviations are pairwise distinct, so the search from any
      earlier position stops at the name's own place. */
  lemma {:induction false} MonthFromOfName(m: int, i: nat)
    requires 1 <= m <= 12 && i < m
    ensures MonthFrom(MonthNames[m - 1], i) == Some(m)
    decreases 12 - i
  {
    if i < m - 1 {
      assert MonthNames[i] != MonthNames[m - 1] by {
        assert MonthNames[i][0] != MonthNames[m - 1][0] || MonthNames[i][1] != MonthNames[m - 1][1]
          || MonthNames[i][2] != MonthNames[m - 1][2];
      }
      MonthFromOfName(m, i + 1);
    }
  }

  lemma JoinThree(a: string, b: string, c: string, sep: string)
    ensures Join([a, b, c], sep) == a + sep + b + sep + c
  {
    assert [a, b, c][1..] == [b, c];
    assert [b, c][1..] == [c];
    assert Join([c], sep) == c;
    assert Join([b, c], sep) == b + sep + c;
    assert Join([a, b, c], sep) == a + sep + (b + sep + c);
  }

  /** Splitting `a<sep>b<sep>c` on `sep` gives back the three pieces. */
  lemma SplitThree(a: string, b: string, c: string, sep: char)
    requires sep !in a && sep !in b && sep !in c
    ensures SplitOn(Join([a, b, c], [sep]), sep) == [a, b, c]
  {
    SplitOnJoin([a, b, c], sep);
  }

  lemma ParseClockOfFields(h: nat, m: nat, sec: nat)
    ensures ParseClock(Join([Pad2(h), Pad2(m), Pad2(sec)], ":")) == Some((h, m, sec))
  {
    ParseIntOfPad2(h);
    ParseIntOfPad2(m);
    ParseIntOfPad2(sec);
    assert ':' !in Pad2(h) && ':' !in Pad2(m) && ':' !in Pad2(sec);
    SplitThree(Pad2(h), Pad2(m), Pad2(sec), ':');
  }

  lemma ParseCalendarDateOfParts(date: string, a: string, b: string, c: string)
    requires SplitOn(date, '-') == [a, b, c]
    requires ParseInt(a).Some? && MonthNumber(b).Some? && ParseInt(c).Some?
    ensures ParseCalendarDate(date) == Some((ParseInt(a).value, MonthNumber(b).value, ParseInt(c).value))
  {
  }

  lemma ParseCalendarDateOfFields(d: nat, month: int, y: nat)
    requires 1 <= month <= 12
    ensures ParseCalendarDate(Join([Pad2(d), MonthNames[month - 1], NatToString(y)], "-")) == Some((d, month, y))
  {
    var mon := MonthNames[month - 1];
    ParseIntOfPad2(d);
    ParseIntOfDigits(NatToString(y));
    MonthNumberOfName(month);
    MonthNameIsWord(month);
    assert '-' !in Pad2(d) && '-' !in NatToString(y);
    SplitThree(Pad2(d), mon, NatToString(y), '-');
    ParseCalendarDateOfParts(Join([Pad2(d), mon, NatToString(y)], "-"), Pad2(d), mon, NatToString(y));
  }

  lemma ClockIsWord(h: nat, m: nat, sec: nat)
    ensures IsWord(Join([Pad2(h), Pad2(m), Pad2(sec)], ":"))
  {
    ParseIntOfPad2(h);
    ParseIntOfPad2(m);
    ParseIntOfPad2(sec);
    DigitsAreWord(Pad2(h));
    DigitsAreWord(Pad2(m));
    DigitsAreWord(Pad2(sec));
    JoinIsWord([Pad2(h), Pad2(m), Pad2(sec)], ":");
  }

  lemma CalendarDateIsWord(d: nat, month: int, y: nat)
    requires 1 <= month <= 12
    ensures IsWord(Join([Pad2(d), MonthNames[month - 1], NatToString(y)], "-"))
  {
    ParseIntOfPad2(d);
    DigitsAreWord(Pad2(d));
    DigitsAreWord(NatToString(y));
    MonthNameIsWord(month);
    JoinIsWord([Pad2(d), MonthNames[month - 1], NatToString(y)], "-");
  }

  /** `parse_date` reads back every field of a timestamp written in the
      instrument's format. */
  lemma ParseDateOfFormatDate(t: DateTime)
    requires ValidDateTime(t)
    ensures ParseDate(FormatDate(t)) == Some(t)
  {
    var time := Join([Pad2(t.hour), Pad2(t.minute), Pad2(t.second)], ":");
    var date := Join([Pad2(t.day), MonthNames[t.month - 1], NatToString(t.year)], "-");
    ClockIsWord(t.hour, t.minute, t.second);
    CalendarDateIsWord(t.day, t.month, t.year);
    SplitOnceOfTwoWords(time, date);
    ParseClockOfFields(t.hour, t.minute, t.second);
    ParseCalendarDateOfFields(t.day, t.month, t.year);
  }

  /** `duration = -t0 + t1` for the pair `t0 t1`. */
  lemma {:induction false} DurationOfPair(t0: string, t1: string)
    requires IsWord(t0) && IsWord(t1)
    ensures ParseDuration(t0 + " " + t1) ==
      match (ParseDecimal(t0), ParseDecimal(t1))
      case (Some(a), Some(b)) => Some(-a + b)
      case _ => None
  {
    var text := t0 + " " + t1;
    SplitOnceOfTwoWords(t0, t1);
    DurationOfTokens(text, [t0, t1]);
  }

  /** The duration of a text is the weighted sum of its tokens' numbers. */
  lemma DurationOfTokens(text: string, tokens: seq<string>)
    requires SplitOnce(text) == tokens && |tokens| == 2
    ensures ParseDuration(text) ==
      match (ParseDecimal(tokens[0]), ParseDecimal(tokens[1]))
      case (Some(a), Some(b)) => Some(-a + b)
      case _ => None
  {
    ParseDurationSpec(text);
  }

  /** `duration = -t0` for a single token `t0`. */
  lemma DurationOfSingle(t0: string)
    requires IsWord(t0)
    ensures ParseDuration(t0) ==
      match ParseDecimal(t0)
      case Some(a) => Some(-a)
      case None => None
  {
    assert LStrip(t0) == t0;
    assert WordLength(t0) == |t0|;
    assert t0[..|t0|] == t0;
    assert t0[|t0|..] == "";
    ParseDurationSpec(t0);
  }
}
