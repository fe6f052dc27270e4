/** The schedule-rule storage codec (custom_components/nestquest/core/dao_rules.py) over the validated
    rule model (recurrence.py). Weekday texts are ASCII. */
module RuleCodec {
  import opened Options
  import opened IsoDates
  import opened Texts

  datatype RuleType = Daily | Weekly | MonthlyDay | MonthlyWeekday | Yearly | CustomDays

  datatype ScheduleRule = ScheduleRule(
    ruleType: RuleType, interval: int, weekdaySet: Option<set<int>>, dayOfMonth: Option<int>,
    nthWeekday: Option<int>, nthWeekdayWeekday: Option<int>, month: Option<int>,
    startDate: string, endDate: Option<string>)

  datatype ScheduleRuleStorage = ScheduleRuleStorage(
    ruleType: string, interval: int, weekdaySet: Option<string>, dayOfMonth: Option<int>,
    nthWeekday: Option<int>, month: Option<int>, startDate: string, endDate: Option<string>)

  // ----- which rules construct (recurrence.py)

  predicate Weekdays(o: Option<set<int>>) {
    o.Some? && o.value != {} && forall w :: w in o.value ==> 0 <= w <= 6
  }

  predicate In(o: Option<int>, low: int, high: int) {
    o.Some? && low <= o.value <= high
  }

  predicate WellFormed(r: ScheduleRule) {
    && 1 <= r.interval
    && ParseDate(r.startDate).Some?
    && (r.endDate.Some? ==> ParseDate(r.endDate.value).Some? && !TextBefore(r.endDate.value, r.startDate))
    && match r.ruleType
       case Daily =>
         r.weekdaySet.None? && r.dayOfMonth.None? && r.nthWeekday.None? && r.nthWeekdayWeekday.None? && r.month.None?
       case Weekly =>
         Weekdays(r.weekdaySet) && r.dayOfMonth.None? && r.nthWeekday.None? && r.nthWeekdayWeekday.None? &&
             r.month.None?
       case CustomDays =>
         Weekdays(r.weekdaySet) && r.dayOfMonth.None? && r.nthWeekday.None? && r.nthWeekdayWeekday.None? &&
             r.month.None?
       case MonthlyDay =>
         r.weekdaySet.None? && In(r.dayOfMonth, 1, 31) && r.nthWeekday.None? && r.nthWeekdayWeekday.None? &&
             r.month.None?
       case MonthlyWeekday =>
         r.weekdaySet.None? && r.dayOfMonth.None? && In(r.nthWeekday, -1, 5) && r.nthWeekday != Some(0)
         && In(r.nthWeekdayWeekday, 0, 6) && r.month.None?
       case Yearly =>
         r.weekdaySet.None? && (r.dayOfMonth.Some? ==> In(r.dayOfMonth, 1, 31)) && r.nthWeekday.None?
         && r.nthWeekdayWeekday.None? && In(r.month, 1, 12)
  }

  /** The same, column by column: which types have it, and its values. */
  lemma WellFormedIff(r: ScheduleRule)
    ensures WellFormed(r) <==>
              && r.interval > 0 && ParseDate(r.startDate).Some?
              && (r.endDate.Some? ==> ParseDate(r.endDate.value).Some? && !TextBefore(r.endDate.value, r.startDate))
              && (r.weekdaySet.Some? <==> r.ruleType in {Weekly, CustomDays})
              && (r.weekdaySet.Some? ==> r.weekdaySet.value != {} && forall w :: w in r.weekdaySet.value ==> -1 < w < 7)
              && (r.dayOfMonth.Some? ==> r.ruleType in {MonthlyDay, Yearly} && 0 < r.dayOfMonth.value < 32)
              && (r.ruleType == MonthlyDay ==> r.dayOfMonth.Some?)
              && (r.nthWeekday.Some? <==> r.ruleType == MonthlyWeekday)
              && (r.nthWeekday.Some? ==> r.nthWeekday.value in {-1, 1, 2, 3, 4, 5})
              && (r.nthWeekdayWeekday.Some? <==> r.ruleType == MonthlyWeekday)
              && (r.nthWeekdayWeekday.Some? ==> r.nthWeekdayWeekday.value in {0, 1, 2, 3, 4, 5, 6})
              && (r.month.Some? <==> r.ruleType == Yearly) && (r.month.Some? ==> 0 < r.month.value < 13)
  {
    hide ParseDate, TextBefore;
  }

  // ----- weekday texts

  function Split(s: string): (tokens: seq<string>)
    ensures |tokens| >= 1
  {
    if s == "" then [""]
    else
      var rest := Split(s[1..]);
      if s[0] == ',' then [""] + rest else [[s[0]] + rest[0]] + rest[1..]
  }

  function Join(tokens: seq<string>): string {
    if tokens == [] then ""
    else if |tokens| == 1 then tokens[0]
    else tokens[0] + "," + Join(tokens[1..])
  }

  /** Digits with single underscores between them. */
  predicate IsNumeral(s: string) {
    s != "" && IsDigit(s[0]) &&
    (|s| == 1 || IsNumeral(s[1..]) || (s[1] == '_' && |s| > 2 && IsNumeral(s[2..])))
  }

  function Digits(s: string): (r: string)
    ensures AllDigits(r)
  {
    if s == "" then ""
    else
      var rest := Digits(s[1..]);
      if IsDigit(s[0]) then [s[0]] + rest else rest
  }

  /** Python's `int(token)`; `None` is its ValueError. */
  function ParseInt(token: string): Option<int> {
    var s := Strip(token);
    if s == "" then None
    else if s[0] == '-' then (if IsNumeral(s[1..]) then Some(-Number(Digits(s[1..]))) else None)
    else if s[0] == '+' then (if IsNumeral(s[1..]) then Some(Number(Digits(s[1..]))) else None)
    else if IsNumeral(s) then Some(Number(Digits(s)))
    else None
  }

  function ParseAll(tokens: seq<string>): Option<set<int>> {
    if tokens == [] then Some({})
    else
      var first, rest := ParseInt(tokens[0]), ParseAll(tokens[1..]);
      if first.Some? && rest.Some? then Some({first.value} + rest.value) else None
  }

  /** `str(w)` of a weekday. */
  function Weekday(w: int): string {
    if 0 <= w <= 9 then [Digit(w)] else ""
  }

  /** The members of `days` from `low` to 6, ascending. */
  function Sorted(days: set<int>, low: nat): seq<string>
    decreases 7 - low
  {
    if low > 6 then []
    else if low in days then [Weekday(low)] + Sorted(days, low + 1)
    else Sorted(days, low + 1)
  }

  function Csv(days: set<int>): string {
    Join(Sorted(days, 0))
  }

  // ----- the codec

  function StorageValue(t: RuleType): string {
    match t
    case Daily => "daily"
    case Weekly => "weekly"
    case MonthlyDay => "monthly"
    case MonthlyWeekday => "monthly"
    case Yearly => "yearly"
    case CustomDays => "custom"
  }

  function ToStorage(r: ScheduleRule): ScheduleRuleStorage
    requires WellFormed(r)
  {
    var weekdays :=
      match r.ruleType
      case MonthlyWeekday => Some(Weekday(r.nthWeekdayWeekday.value))
      case Weekly => Some(Csv(r.weekdaySet.value))
      case CustomDays => Some(Csv(r.weekdaySet.value))
      case _ => None;
    ScheduleRuleStorage(StorageValue(r.ruleType), r.interval, weekdays, r.dayOfMonth, r.nthWeekday, r.month,
                        r.startDate, r.endDate)
  }

  function Shape(s: ScheduleRuleStorage): Option<RuleType> {
    if s.ruleType == "daily" then Some(Daily)
    else if s.ruleType == "weekly" then Some(Weekly)
    else if s.ruleType == "monthly" then
      if s.dayOfMonth.Some? && s.nthWeekday.None? then Some(MonthlyDay)
      else if s.nthWeekday.Some? && s.dayOfMonth.None? then Some(MonthlyWeekday)
      else None
    else if s.ruleType == "yearly" then Some(Yearly)
    else if s.ruleType == "custom" then Some(CustomDays)
    else None
  }

  predicate Forbidden(s: ScheduleRuleStorage, t: RuleType) {
    || (s.weekdaySet.Some? && (t.Daily? || t.MonthlyDay? || t.Yearly?))
    || (s.dayOfMonth.Some? && (t.Daily? || t.Weekly? || t.CustomDays? || t.MonthlyWeekday?))
    || (s.nthWeekday.Some? && (t.Daily? || t.Weekly? || t.CustomDays? || t.MonthlyDay? || t.Yearly?))
    || (s.month.Some? && (t.Daily? || t.Weekly? || t.CustomDays? || t.MonthlyDay? || t.MonthlyWeekday?))
  }

  function WeekdaysFromCsv(value: Option<string>): Option<set<int>> {
    if value.None? || value.value == "" then Some({}) else ParseAll(Split(value.value))
  }

  function SingleWeekdayFromCsv(value: Option<string>): Option<int> {
    if value.None? || value.value == "" then None
    else
      var tokens := Split(value.value);
      if |tokens| != 1 then None else ParseInt(tokens[0])
  }

  /** `None` is a RuleValidationError, from the codec or from the rule's constructor. */
  function FromStorage(s: ScheduleRuleStorage): Option<ScheduleRule> {
    var shape := Shape(s);
    if shape.None? || Forbidden(s, shape.value) then None
    else
      var t := shape.value;
      var set_ := if t.Weekly? || t.CustomDays? then WeekdaysFromCsv(s.weekdaySet) else None;
      var single := if t.MonthlyWeekday? then SingleWeekdayFromCsv(s.weekdaySet) else None;
      if ((t.Weekly? || t.CustomDays?) && set_.None?) || (t.MonthlyWeekday? && single.None?) then None
      else
        var r := ScheduleRule(t, s.interval, set_, s.dayOfMonth, s.nthWeekday, single, s.month, s.startDate, s.endDate);
        if WellFormed(r) then Some(r) else None
  }

  // ----- what the codec reads

  /** Digits, with single underscores between them. */
  ghost predicate NumeralShape(s: string) {
    && s != "" && IsDigit(s[0]) && IsDigit(s[|s| - 1])
    && (forall i :: 0 <= i < |s| ==> IsDigit(s[i]) || s[i] == '_')
    && forall i :: 0 < i < |s| ==> s[i - 1] != '_' || s[i] != '_'
  }

  lemma ShapeFrom(s: string, k: nat)
    requires 1 <= k < |s| && k <= 2 && IsDigit(s[0]) && (k == 1 ==> IsDigit(s[1])) && (k == 2 ==> s[1] == '_')
    ensures NumeralShape(s) <==> NumeralShape(s[k..])
  {
    var t := s[k..];
    assert forall i :: 0 <= i < |t| ==> t[i] == s[i + k];
    if NumeralShape(t) {
      forall i | 0 <= i < |s| ensures IsDigit(s[i]) || s[i] == '_' {
        assert i >= k ==> s[i] == t[i - k];
      }
      forall i | 0 < i < |s| ensures s[i - 1] != '_' || s[i] != '_' {
        assert i > k ==> s[i] == t[i - k] && s[i - 1] == t[i - 1 - k];
        assert i == k ==> s[i] == t[0];
      }
    }
    if NumeralShape(s) {
      forall i | 0 < i < |t| ensures t[i - 1] != '_' || t[i] != '_' {
        assert s[i + k - 1] != '_' || s[i + k] != '_';
      }
    }
  }

  lemma {:induction false} NumeralIff(s: string)
    ensures IsNumeral(s) <==> NumeralShape(s)
    decreases |s|
  {
    if |s| > 1 && IsDigit(s[0]) {
      if IsDigit(s[1]) {
        NumeralIff(s[1..]);
        ShapeFrom(s, 1);
      } else if |s| > 2 && s[1] == '_' {
        NumeralIff(s[2..]);
        ShapeFrom(s, 2);
      }
    }
  }

  /** Plain digits are their own numeral. */
  lemma {:induction false} DigitsOfDigits(s: string)
    requires AllDigits(s)
    ensures Digits(s) == s && (s != "" ==> IsNumeral(s))
  {
    if s != "" { DigitsOfDigits(s[1..]); }
  }

  /** `int` takes a numeral with a sign or none and spaces around it. */
  ghost predicate ReadsInt(token: string, t: string, v: int) {
    StripsFrom(token, t) && t != "" &&
    var n := if t[0] == '-' || t[0] == '+' then t[1..] else t;
    NumeralShape(n) && v == if t[0] == '-' then -Number(Digits(n)) else Number(Digits(n))
  }

  lemma ParseIntIff(token: string, v: int)
    ensures ParseInt(token) == Some(v) <==> exists t :: ReadsInt(token, t, v)
  {
    hide Strip, StripsFrom, IsNumeral, NumeralShape, Digits, Number;
    var s := Strip(token);
    StripIff(token, s);
    if s != "" {
      NumeralIff(s);
      NumeralIff(s[1..]);
      DigitFirst(s);
    }
    if ParseInt(token) == Some(v) { assert ReadsInt(token, s, v); }
    if t :| ReadsInt(token, t, v) { StripIff(token, t); }
  }

  lemma DigitFirst(s: string)
    ensures IsNumeral(s) ==> s != "" && s[0] != '-' && s[0] != '+'
  {}

  /** The weekday column of a rule: for the two set types a list of weekdays at commas, for the monthly weekday one. */
  ghost predicate ReadsWeekdays(column: Option<string>, r: ScheduleRule) {
    match r.ruleType
    case Weekly => column.Some? && column.value != "" && ParseAll(Split(column.value)) == r.weekdaySet
    case CustomDays => column.Some? && column.value != "" && ParseAll(Split(column.value)) == r.weekdaySet
    case MonthlyWeekday =>
      column.Some? && column.value != "" && NoComma(column.value) && ParseInt(column.value) == r.nthWeekdayWeekday
    case _ => column.None?
  }

  /** A row decodes to a rule exactly if the rule is well formed, the row has the rule's type and columns, and its
      weekday column reads as the rule's weekdays. */
  lemma FromStorageIff(s: ScheduleRuleStorage, r: ScheduleRule)
    ensures FromStorage(s) == Some(r) <==>
              && WellFormed(r) && ReadsWeekdays(s.weekdaySet, r)
              && s.ruleType == (match r.ruleType
                                case Daily => "daily" case Weekly => "weekly" case MonthlyDay => "monthly"
                                case MonthlyWeekday => "monthly" case Yearly => "yearly" case CustomDays => "custom")
              && s.interval == r.interval && s.dayOfMonth == r.dayOfMonth && s.nthWeekday == r.nthWeekday
              && s.month == r.month && s.startDate == r.startDate && s.endDate == r.endDate
  {
    hide ParseInt, ParseDate, Split;
    if s.weekdaySet.Some? { OneToken(s.weekdaySet.value); }
  }

  lemma {:induction false} OneToken(s: string)
    ensures |Split(s)| == 1 <==> NoComma(s)
    ensures NoComma(s) ==> Split(s) == [s]
  {
    if s != "" {
      OneToken(s[1..]);
      assert s == [s[0]] + s[1..];
      if NoComma(s[1..]) && s[0] != ',' {
        assert forall i :: 1 <= i < |s| ==> s[i] == s[1..][i - 1];
      }
      if NoComma(s) { assert forall i :: 0 <= i < |s[1..]| ==> s[1..][i] == s[i + 1]; }
    }
  }

  // ----- round trips

  lemma ParseWeekday(w: int)
    requires 0 <= w <= 6
    ensures ParseInt(Weekday(w)) == Some(w)
  {
    var s := Weekday(w);
    assert s[0] == Digit(w) && IsDigit(s[0]) && !IsSpace(s[0]) && s[0] != '-' && s[0] != '+';
    assert StripLeft(s) == s && StripRight(s) == s;
    assert s[1..] == "";
    assert Digits(s) == [s[0]] + Digits("") == s;
    assert s[..|s| - 1] == "";
    assert Number(s) == 10 * Number("") + w;
  }

  predicate NoComma(s: string) {
    forall i :: 0 <= i < |s| ==> s[i] != ','
  }

  lemma {:induction false} SplitFirst(a: string, rest: string)
    requires NoComma(a)
    ensures Split(a) == [a]
    ensures Split(a + "," + rest) == [a] + Split(rest)
  {
    if a == "" {
      assert a + "," + rest == "," + rest && ("," + rest)[1..] == rest;
    } else {
      SplitFirst(a[1..], rest);
      assert a == [a[0]] + a[1..];
      assert (a + "," + rest)[1..] == a[1..] + "," + rest;
    }
  }

  lemma {:induction false} SplitJoin(tokens: seq<string>)
    requires tokens != [] && forall i :: 0 <= i < |tokens| ==> NoComma(tokens[i])
    ensures Split(Join(tokens)) == tokens
  {
    hide Split, NoComma;
    if |tokens| == 1 {
      SplitFirst(tokens[0], "");
    } else {
      SplitJoin(tokens[1..]);
      SplitFirst(tokens[0], Join(tokens[1..]));
      assert Join(tokens) == tokens[0] + "," + Join(tokens[1..]);
      assert tokens == [tokens[0]] + tokens[1..];
    }
  }

  ghost function From(days: set<int>, low: int): set<int> {
    set w | w in days && low <= w <= 6
  }

  lemma FromStep(days: set<int>, low: int)
    ensures From(days, low) == if low in days && low <= 6 then {low} + From(days, low + 1) else From(days, low + 1)
    ensures low > 6 ==> From(days, low) == {}
  {}

  lemma {:induction false} SortedParses(days: set<int>, low: nat)
    ensures ParseAll(Sorted(days, low)) == Some(From(days, low))
    decreases 7 - low
  {
    hide From, ParseInt, Weekday;
    FromStep(days, low);
    if low <= 6 {
      var rest := Sorted(days, low + 1);
      SortedParses(days, low + 1);
      ParseWeekday(low);
      var all := [Weekday(low)] + rest;
      assert all[0] == Weekday(low) && all[1..] == rest;
      assert ParseAll(all) == Some({low} + From(days, low + 1));
    }
  }

  ghost predicate IsWeekdayOf(token: string, days: set<int>) {
    exists w :: 0 <= w <= 6 && w in days && token == Weekday(w)
  }

  lemma {:induction false} SortedAreDigits(days: set<int>, low: nat)
    ensures forall i :: 0 <= i < |Sorted(days, low)| ==> IsWeekdayOf(Sorted(days, low)[i], days)
    decreases 7 - low
  {
    hide Weekday;
    if low <= 6 {
      SortedAreDigits(days, low + 1);
      assert low in days ==> IsWeekdayOf(Weekday(low), days);
      assert Sorted(days, low) == if low in days then [Weekday(low)] + Sorted(days, low + 1) else Sorted(days, low + 1);
    } else {
      assert Sorted(days, low) == [];
    }
  }

  lemma WeekdayIsDigit(w: int)
    requires 0 <= w <= 6
    ensures |Weekday(w)| == 1 && NoComma(Weekday(w))
  {}

  lemma SortedNotEmpty(days: set<int>)
    requires Weekdays(Some(days))
    ensures Sorted(days, 0) != []
  {
    SortedParses(days, 0);
    assert From(days, 0) == days;
    assert ParseAll([]) == Some({});
    hide Sorted, ParseAll;
  }

  lemma CsvIsSorted(days: set<int>)
    requires Weekdays(Some(days))
    ensures Csv(days) != "" && Split(Csv(days)) == Sorted(days, 0)
  {
    hide Sorted, Split, Weekday, NoComma;
    var tokens := Sorted(days, 0);
    SortedAreDigits(days, 0);
    forall i | 0 <= i < |tokens| ensures |tokens[i]| == 1 && NoComma(tokens[i]) {
      assert IsWeekdayOf(tokens[i], days);
      var w :| 0 <= w <= 6 && w in days && tokens[i] == Weekday(w);
      WeekdayIsDigit(w);
    }
    SortedNotEmpty(days);
    SplitJoin(tokens);
  }

  lemma CsvReadsBack(days: set<int>)
    requires Weekdays(Some(days))
    ensures Csv(days) != "" && WeekdaysFromCsv(Some(Csv(days))) == Some(days)
  {
    hide Sorted, ParseAll, Split;
    CsvIsSorted(days);
    SortedParses(days, 0);
    assert From(days, 0) == days;
  }

  /** Decoding the stored form of any rule gives the rule back. */
  lemma DecodeEncode(r: ScheduleRule)
    requires WellFormed(r)
    ensures FromStorage(ToStorage(r)) == Some(r)
  {
    hide Csv, WeekdaysFromCsv, ParseInt, Weekday;
    if r.ruleType.Weekly? || r.ruleType.CustomDays? {
      CsvReadsBack(r.weekdaySet.value);
    } else if r.ruleType.MonthlyWeekday? {
      SingleReadsBack(r.nthWeekdayWeekday.value);
    }
  }

  lemma SingleReadsBack(w: int)
    requires 0 <= w <= 6
    ensures Weekday(w) != "" && SingleWeekdayFromCsv(Some(Weekday(w))) == Some(w)
  {
    ParseWeekday(w);
    SplitFirst(Weekday(w), "");
  }

  lemma {:induction false} JoinSplit(s: string)
    ensures Join(Split(s)) == s
    ensures s != "" ==> (s[0] == ',' ==> |Split(s)| > 1)
  {
    if s != "" {
      var rest := Split(s[1..]);
      JoinSplit(s[1..]);
      var tokens := Split(s);
      if s[0] == ',' {
        assert tokens == [""] + rest && tokens[1..] == rest;
        assert Join(tokens) == "" + "," + Join(rest);
      } else {
        assert tokens[0] == [s[0]] + rest[0] && tokens[1..] == rest[1..];
        JoinHead(s[0], rest);
      }
      assert s == [s[0]] + s[1..];
    }
  }

  lemma JoinHead(c: char, tokens: seq<string>)
    requires tokens != []
    ensures Join([[c] + tokens[0]] + tokens[1..]) == [c] + Join(tokens)
  {
    var more := [[c] + tokens[0]] + tokens[1..];
    JoinCons([c] + tokens[0], tokens[1..]);
    JoinCons(tokens[0], tokens[1..]);
    assert tokens == [tokens[0]] + tokens[1..];
    HeadAssociates(c, tokens[0], if |tokens| > 1 then Join(tokens[1..]) else "");
    hide Join;
  }

  lemma JoinCons(t: string, rest: seq<string>)
    ensures Join([t] + rest) == if rest == [] then t else t + "," + Join(rest)
  {
    var all := [t] + rest;
    assert all[0] == t && all[1..] == rest;
  }

  lemma HeadAssociates(c: char, a: string, b: string)
    ensures ([c] + a) + "," + b == [c] + (a + "," + b)
  {}

  /** Ascending weekday digits from `low` on: what the encoder writes. */
  ghost predicate CanonicalTokens(tokens: seq<string>, low: int) {
    && (forall i :: 0 <= i < |tokens| ==> |tokens[i]| == 1 && low <= (tokens[i][0] as int) - 48 <= 6)
    && (forall i, j :: 0 <= i < j < |tokens| ==> |tokens[i]| == 1 && |tokens[j]| == 1 && tokens[i][0] < tokens[j][0])
  }

  ghost predicate Canonical(column: Option<string>) {
    column.None? || (column.value != "" && CanonicalTokens(Split(column.value), 0))
  }

  lemma {:induction false} CanonicalParses(tokens: seq<string>, low: nat)
    requires CanonicalTokens(tokens, low)
    ensures ParseAll(tokens).Some?
    ensures Sorted(ParseAll(tokens).value, low) == tokens
    ensures forall w :: w in ParseAll(tokens).value ==> low <= w <= 6
    decreases 7 - low
  {
    hide ParseInt;
    if tokens == [] {
      EmptySorted(low);
    } else {
      var first := (tokens[0][0] as int) - 48;
      assert tokens[0] == Weekday(first);
      ParseWeekday(first);
      if first == low {
        CanonicalParses(tokens[1..], low + 1);
        var rest := ParseAll(tokens[1..]).value;
        SortedSkips(rest, {low} + rest, low + 1);
        assert tokens == [tokens[0]] + tokens[1..];
      } else {
        assert CanonicalTokens(tokens, low + 1) by {
          forall i | 0 <= i < |tokens| ensures low + 1 <= (tokens[i][0] as int) - 48 {
            assert i > 0 ==> tokens[0][0] < tokens[i][0];
          }
        }
        CanonicalParses(tokens, low + 1);
      }
    }
  }

  lemma {:induction false} EmptySorted(low: nat)
    ensures Sorted({}, low) == []
    decreases 7 - low
  {
    if low <= 6 { EmptySorted(low + 1); }
  }

  lemma {:induction false} SortedSkips(a: set<int>, b: set<int>, low: nat)
    requires forall w :: low <= w <= 6 ==> (w in a <==> w in b)
    ensures Sorted(a, low) == Sorted(b, low)
    decreases 7 - low
  {
    if low <= 6 { SortedSkips(a, b, low + 1); }
  }

  lemma {:induction false} SortedIsCanonical(days: set<int>, low: nat)
    ensures CanonicalTokens(Sorted(days, low), low)
    decreases 7 - low
  {
    if low <= 6 { SortedIsCanonical(days, low + 1); }
  }

  /** The column an encoder wrote reads canonical. */
  lemma CsvIsCanonical(days: set<int>)
    requires Weekdays(Some(days))
    ensures Canonical(Some(Csv(days)))
  {
    hide Sorted, CanonicalTokens, Split;
    CsvReadsBack(days);
    CsvIsSorted(days);
    SortedIsCanonical(days, 0);
  }

  lemma CanonicalRewrites(column: string, days: set<int>)
    requires WeekdaysFromCsv(Some(column)) == Some(days) && Weekdays(Some(days))
    ensures Csv(days) == column <==> Canonical(Some(column))
  {
    hide Sorted, Split, CanonicalTokens, ParseAll;
    if Canonical(Some(column)) {
      CanonicalParses(Split(column), 0);
      JoinSplit(column);
    }
    if Csv(days) == column { CsvIsCanonical(days); }
  }

  lemma SingleRewrites(column: string, w: int)
    requires SingleWeekdayFromCsv(Some(column)) == Some(w) && 0 <= w <= 6
    ensures Weekday(w) == column <==> Canonical(Some(column))
  {
    hide ParseInt;
    JoinSplit(column);
    var tokens := Split(column);
    assert tokens == [column];
    if Canonical(Some(column)) {
      var d := (column[0] as int) - 48;
      assert column == Weekday(d);
      ParseWeekday(d);
    }
    if Weekday(w) == column {
      assert CanonicalTokens(tokens, 0);
    }
  }

  /** Re-encoding what a row decodes to gives the same row exactly when its weekday column is canonical. */
  lemma EncodeDecodeIff(s: ScheduleRuleStorage)
    requires FromStorage(s).Some?
    ensures ToStorage(FromStorage(s).value) == s <==> Canonical(s.weekdaySet)
  {
    hide Csv, WeekdaysFromCsv, SingleWeekdayFromCsv, Canonical, Weekday, WellFormed;
    var r := FromStorage(s).value;
    DecodedFits(s);
    if r.ruleType.Weekly? || r.ruleType.CustomDays? {
      CanonicalRewrites(s.weekdaySet.value, r.weekdaySet.value);
    } else if r.ruleType.MonthlyWeekday? {
      SingleRewrites(s.weekdaySet.value, r.nthWeekdayWeekday.value);
    } else {
      NoneIsCanonical();
    }
  }

  lemma NoneIsCanonical()
    ensures Canonical(None)
  {}

  /** What the column of a decodable row holds. */
  lemma DecodedFits(s: ScheduleRuleStorage)
    requires FromStorage(s).Some?
    ensures var r := FromStorage(s).value;
            && WellFormed(r) && StorageValue(r.ruleType) == s.ruleType
            && (r.ruleType.Weekly? || r.ruleType.CustomDays? ==>
                  s.weekdaySet.Some? && Weekdays(r.weekdaySet) && WeekdaysFromCsv(s.weekdaySet) == r.weekdaySet)
            && (r.ruleType.MonthlyWeekday? ==>
                  s.weekdaySet.Some? && In(r.nthWeekdayWeekday, 0, 6)
                  && SingleWeekdayFromCsv(s.weekdaySet) == r.nthWeekdayWeekday)
            && (s.weekdaySet.Some? ==> r.ruleType.Weekly? || r.ruleType.CustomDays? || r.ruleType.MonthlyWeekday?)
  {
    hide ParseAll, Split, ParseInt;
  }

  /** Decoding a row and encoding it again loses nothing: every column is as it was, and the weekday
      column names the same days. */
  lemma NothingIsDropped(s: ScheduleRuleStorage)
    requires FromStorage(s).Some?
    ensures var t := ToStorage(FromStorage(s).value);
            && t == s.(weekdaySet := t.weekdaySet)
            && (t.weekdaySet.Some? <==> s.weekdaySet.Some?)
            && WeekdaysFromCsv(t.weekdaySet) == WeekdaysFromCsv(s.weekdaySet)
            && FromStorage(t) == FromStorage(s)
  {
    hide Csv, WeekdaysFromCsv, SingleWeekdayFromCsv, Weekday, WellFormed;
    var r := FromStorage(s).value;
    DecodedFits(s);
    DecodeEncode(r);
    if r.ruleType.Weekly? || r.ruleType.CustomDays? {
      CsvReadsBack(r.weekdaySet.value);
    } else if r.ruleType.MonthlyWeekday? {
      SingleReadsBack(r.nthWeekdayWeekday.value);
      SingleIsSet(s.weekdaySet, r.nthWeekdayWeekday.value);
      SingleIsSet(Some(Weekday(r.nthWeekdayWeekday.value)), r.nthWeekdayWeekday.value);
    }
  }

  lemma SingleIsSet(column: Option<string>, w: int)
    requires SingleWeekdayFromCsv(column) == Some(w)
    ensures WeekdaysFromCsv(column) == Some({w})
  {
    hide ParseInt;
    var tokens := Split(column.value);
    assert tokens[1..] == [];
    assert ParseAll(tokens[1..]) == Some({});
    assert {w} + {} == {w};
  }

  // ----- the table's CHECK constraints (schema.py)

  predicate MatchesGlob(column: string) {
    var tokens := Split(column);
    1 <= |tokens| <= 7 && forall i :: 0 <= i < |tokens| ==> |tokens[i]| == 1 && '0' <= tokens[i][0] <= '6'
  }

  predicate SchemaAccepts(s: ScheduleRuleStorage) {
    && s.ruleType in {"daily", "weekly", "monthly", "yearly", "custom"}
    && 1 <= s.interval
    && (s.weekdaySet.Some? ==> MatchesGlob(s.weekdaySet.value))
    && (s.dayOfMonth.Some? ==> In(s.dayOfMonth, 1, 31))
    && (s.nthWeekday.Some? ==> s.nthWeekday.value in {-1, 1, 2, 3, 4, 5})
    && (s.month.Some? ==> In(s.month, 1, 12))
    && (s.endDate.Some? ==> !TextBefore(s.endDate.value, s.startDate))
    && (|| (s.ruleType == "weekly" && s.weekdaySet.Some?)
        || (s.ruleType == "monthly" && (s.dayOfMonth.Some? || s.nthWeekday.Some?))
        || (s.ruleType == "yearly" && s.month.Some?)
        || (s.ruleType in {"daily", "custom"} && s.dayOfMonth.None? && s.nthWeekday.None? && s.month.None?))
  }

  ghost function WeekdayTexts(days: seq<int>): seq<string> {
    seq(|days|, i requires 0 <= i < |days| => Weekday(days[i]))
  }

  /** One to seven weekday digits at commas. */
  ghost predicate IsWeekdayList(column: string, days: seq<int>) {
    1 <= |days| <= 7 && (forall i :: 0 <= i < |days| ==> 0 <= days[i] <= 6) && column == Join(WeekdayTexts(days))
  }

  lemma MatchesGlobIff(column: string)
    ensures MatchesGlob(column) <==> exists days :: IsWeekdayList(column, days)
  {
    hide Split, Join;
    if MatchesGlob(column) {
      var tokens := Split(column);
      JoinSplit(column);
      var days := seq(|tokens|, i requires 0 <= i < |tokens| =>
        if |tokens[i]| == 1 then tokens[i][0] as int - 48 else 0);
      forall i | 0 <= i < |tokens| ensures 0 <= days[i] <= 6 && Weekday(days[i]) == tokens[i] {
        assert tokens[i] == [tokens[i][0]];
      }
      assert WeekdayTexts(days) == tokens;
      assert IsWeekdayList(column, days);
    }
    if days :| IsWeekdayList(column, days) {
      forall i | 0 <= i < |days| ensures NoComma(WeekdayTexts(days)[i]) { WeekdayIsDigit(days[i]); }
      SplitJoin(WeekdayTexts(days));
    }
  }

  lemma {:induction false} SortedIsShort(days: set<int>, low: nat)
    requires low <= 7
    ensures |Sorted(days, low)| <= 7 - low
    decreases 7 - low
  {
    if low <= 6 { SortedIsShort(days, low + 1); }
  }

  lemma CsvMatchesGlob(days: set<int>)
    requires Weekdays(Some(days))
    ensures MatchesGlob(Csv(days))
  {
    hide Sorted, Split;
    CsvIsCanonical(days);
    CsvIsSorted(days);
    SortedIsShort(days, 0);
  }

  /** The database takes the stored form of every rule. */
  lemma EncodedIsStorable(r: ScheduleRule)
    requires WellFormed(r)
    ensures SchemaAccepts(ToStorage(r))
  {
    hide Csv, Weekday, MatchesGlob;
    if r.ruleType.Weekly? || r.ruleType.CustomDays? {
      CsvMatchesGlob(r.weekdaySet.value);
    } else if r.ruleType.MonthlyWeekday? {
      SingleMatchesGlob(r.nthWeekdayWeekday.value);
    }
  }

  lemma SingleMatchesGlob(w: int)
    requires 0 <= w <= 6
    ensures MatchesGlob(Weekday(w))
  {
    SplitFirst(Weekday(w), "");
  }
}
