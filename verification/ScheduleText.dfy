// Reading a schedule's text (crates/repomon-core/src/schedule.rs:18-59).
module ScheduleText {
  import opened Prelude
  import opened Text
  import opened Schedule

  datatype Clock = Clock(h: nat, m: nat)

  function ReadClock(s: string): Option<Clock> {
    var i := Find(s, ':');
    if i == |s| then None
    else
      var h, m := ReadNumber(s[..i]), ReadNumber(s[i + 1..]);
      if h.None? || m.None? || h.value > 23 || m.value > 59 then None else Some(Clock(h.value, m.value))
  }

  // ---------------------------------------------------------------- bytes of text

  datatype Halves = Halves(left: string, right: string)

  // Cutting text after its first `k` bytes; the source panics when that is inside a character.
  function SplitAt(s: string, k: nat): Option<Halves> {
    if k == 0 then Some(Halves("", s))
    else if s == [] || k < Utf8Length(s[0]) then None
    else
      match SplitAt(s[1..], k - Utf8Length(s[0]))
      case None => None
      case Some(h) => Some(Halves([s[0]] + h.left, h.right))
  }

  lemma {:induction false} SplitBeforeLastByte(s: string)
    requires s != []
    ensures ByteLength(s) >= 1
    ensures
      SplitAt(s, ByteLength(s) - 1)
      == if Utf8Length(s[|s| - 1]) == 1 then Some(Halves(s[..|s| - 1], [s[|s| - 1]])) else None
  {
    if |s| == 1 {
      assert s[1..] == [] && s[..0] == [] && s == [s[0]];
    } else {
      var rest := s[1..];
      SplitBeforeLastByte(rest);
      assert rest[|rest| - 1] == s[|s| - 1];
      assert [s[0]] + rest[..|rest| - 1] == s[..|s| - 1];
    }
  }

  // ---------------------------------------------------------------- the parser

  // A 64-bit signed product wraps around.
  function Wrap64(n: int): int {
    var r := n % 0x1_0000_0000_0000_0000;
    if r > LARGEST then r - 0x1_0000_0000_0000_0000 else r
  }

  datatype Parsed = Accepted(spec: Spec) | Rejected | Panicked

  function ReadPeriod(s: string): Parsed {
    match SplitAt(s, if ByteLength(s) > 0 then ByteLength(s) - 1 else 0)
    case None => Panicked
    case Some(h) =>
      var n := ReadNumber(h.left);
      if n.None? || n.value > LARGEST || n.value == 0 then Rejected
      else if h.right == "m" then Accepted(Every(n.value))
      else if h.right == "h" then Accepted(Every(Wrap64(n.value * 60)))
      else Rejected
  }

  function ParseSpec(s: string): Parsed {
    var words := Words(s);
    if |words| != 2 then Rejected
    else
      var kind, rest := Lower(words[0]), words[1];
      if kind == "daily" || kind == "weekdays" || kind == "weekends" then
        match ReadClock(rest)
        case None => Rejected
        case Some(c) =>
          Accepted(if kind == "daily" then Daily(c.h, c.m)
                   else if kind == "weekdays" then Weekdays(c.h, c.m) else Weekends(c.h, c.m))
      else if kind == "every" then ReadPeriod(rest)
      else Rejected
  }

  predicate SaysEvery(s: string) { |Words(s)| == 2 && Lower(Words(s)[0]) == "every" }

  predicate EndsIn(word: string, p: char -> bool) { word != [] && p(word[|word| - 1]) }

  // Reading panics exactly for "every", in any case, and a second word that ends in a character of
  // several bytes.
  lemma PanicsExactly(s: string)
    ensures ParseSpec(s).Panicked? <==> SaysEvery(s) && EndsIn(Words(s)[1], c => Utf8Length(c) > 1)
  {
    WordsAreWords(s);
    if |Words(s)| == 2 {
      assert Words(s)[1] in Words(s);
      SplitBeforeLastByte(Words(s)[1]);
    }
  }

  // Thirty ranges of numbers of hours, in which the minutes wrap to none or less.
  ghost predicate WrapsBack(n: nat) {
    exists k :: 0 <= k < 30 && InRange(n, k)
  }

  predicate InRange(n: nat, k: int) {
    (2 * k + 1) * 0x8000_0000_0000_0000 <= 60 * n <= (2 * k + 2) * 0x8000_0000_0000_0000
  }

  lemma WrapsBackExactly(n: nat)
    requires 0 < n <= LARGEST
    ensures Wrap64(n * 60) <= 0 <==> WrapsBack(n)
  {
    var q, r := n * 60 / 0x1_0000_0000_0000_0000, n * 60 % 0x1_0000_0000_0000_0000;
    if Wrap64(n * 60) <= 0 {
      assert InRange(n, if r == 0 then q - 1 else q);
    }
    if k :| 0 <= k < 30 && InRange(n, k) {
      assert q == k || q == k + 1;
    }
  }

  // A word that ends in h after a number of hours in one of these ranges.
  ghost predicate HoursWrap(word: string) {
    EndsIn(word, c => c == 'h')
    && var n := ReadNumber(word[..|word| - 1]);
       n.Some? && WrapsBack(n.value)
  }

  lemma PeriodIsValidExactly(word: string)
    requires word != [] && ReadPeriod(word).Accepted?
    ensures ReadPeriod(word).spec.Every? && (Valid(ReadPeriod(word).spec) <==> !HoursWrap(word))
  {
    SplitBeforeLastByte(word);
    var n := ReadNumber(word[..|word| - 1]);
    if n.Some? && 0 < n.value <= LARGEST { WrapsBackExactly(n.value); }
  }

  // What is accepted can be scheduled, except exactly for periods in hours that wrap around.
  lemma AcceptedIsValidExactly(s: string)
    requires ParseSpec(s).Accepted?
    ensures ParseSpec(s).spec.Every? <==> SaysEvery(s)
    ensures Valid(ParseSpec(s).spec) <==> !(SaysEvery(s) && HoursWrap(Words(s)[1]))
  {
    WordsAreWords(s);
    if SaysEvery(s) {
      assert Words(s)[1] in Words(s);
      PeriodIsValidExactly(Words(s)[1]);
    }
  }

  // ---------------------------------------------------------------- the documented forms

  function TwoDigits(n: nat): string
    requires n < 100
  {
    [DigitOf(n / 10), DigitOf(n % 10)]
  }

  function KindText(s: Spec): string {
    match s
    case Daily(_, _) => "daily"
    case Weekdays(_, _) => "weekdays"
    case Weekends(_, _) => "weekends"
    case Every(_) => "every"
  }

  function RestText(s: Spec): string
    requires Valid(s)
  {
    if s.Every? then Decimal(s.minutes) + "m" else TwoDigits(s.h) + ":" + TwoDigits(s.m)
  }

  function Print(s: Spec): string
    requires Valid(s)
  {
    KindText(s) + " " + RestText(s)
  }

  lemma TwoDigitsRoundTrip(n: nat)
    requires n < 100
    ensures Digits(TwoDigits(n)) == Some(n) && ReadNumber(TwoDigits(n)) == Some(n)
    ensures ':' !in TwoDigits(n) && NoSpace(TwoDigits(n))
  {
    var s := TwoDigits(n);
    assert s[..1] == [DigitOf(n / 10)];
  }

  lemma ClockRoundTrip(s: Spec)
    requires Valid(s) && !s.Every?
    ensures ReadClock(RestText(s)) == Some(Clock(s.h, s.m)) && NoSpace(RestText(s))
  {
    var t := RestText(s);
    TwoDigitsRoundTrip(s.h);
    TwoDigitsRoundTrip(s.m);
    assert t == TwoDigits(s.h) + [':'] + TwoDigits(s.m);
    FindFirst(TwoDigits(s.h), ':', TwoDigits(s.m));
    assert t[..2] == TwoDigits(s.h) && t[3..] == TwoDigits(s.m);
  }

  // A number of some unit.
  lemma NumberAndUnit(number: string, unit: char)
    requires NoSpace(number) && unit < '\U{80}' && !IsSpace(unit)
    ensures
      var t := number + [unit];
      NoSpace(t) && ByteLength(t) >= 1 && SplitAt(t, ByteLength(t) - 1) == Some(Halves(number, [unit]))
  {
    var t := number + [unit];
    SplitBeforeLastByte(t);
    assert t[..|t| - 1] == number;
  }

  lemma PeriodRoundTrip(s: Spec)
    requires Valid(s) && s.Every? && s.minutes <= LARGEST
    ensures ReadPeriod(RestText(s)) == Accepted(s) && NoSpace(RestText(s))
  {
    DecimalIsNumber(s.minutes);
    NumberAndUnit(Decimal(s.minutes), 'm');
  }

  lemma KindIsAWord(s: Spec)
    ensures Lower(KindText(s)) == KindText(s) && KindText(s) != [] && NoSpace(KindText(s))
  {
    var k := KindText(s);
    forall i | 0 <= i < |k| ensures LowerChar(k[i]) == k[i] && !IsSpace(k[i]) {
      assert 'a' <= k[i] <= 'z';
    }
    assert Lower(k) == k;
  }

  lemma TwoWords(a: string, b: string)
    requires a != [] && NoSpace(a) && b != [] && NoSpace(b)
    ensures Words(a + " " + b) == [a, b]
  {
    var parts := [a, b];
    assert Join(parts[1..], ' ') == b;
    assert Join(parts, ' ') == a + " " + b;
    WordsOfJoin(parts);
  }

  lemma PeriodsAreRead(rest: string)
    requires rest != [] && NoSpace(rest)
    ensures ParseSpec("every" + " " + rest) == ReadPeriod(rest)
  {
    KindIsAWord(Every(1));
    TwoWords("every", rest);
  }

  lemma WrapsExactly(n: nat)
    ensures Wrap64(n) == n <==> n <= LARGEST
  {}

  lemma HoursPeriod(n: nat)
    requires 0 < n <= LARGEST
    ensures NoSpace(Decimal(n) + ['h'])
    ensures ReadPeriod(Decimal(n) + ['h']) == Accepted(Every(Wrap64(n * 60)))
  {
    DecimalIsNumber(n);
    NumberAndUnit(Decimal(n), 'h');
  }

  function HoursText(n: nat): string { "every" + " " + (Decimal(n) + ['h']) }

  // The documented form in hours is read as that many hours exactly when their minutes fit 63 bits.
  lemma HoursAreReadExactly(n: nat)
    requires 0 < n <= LARGEST
    ensures ParseSpec(HoursText(n)) == Accepted(Every(Wrap64(n * 60)))
    ensures ParseSpec(HoursText(n)) == Accepted(Every(n * 60)) <==> n * 60 <= LARGEST
  {
    HoursPeriod(n);
    PeriodsAreRead(Decimal(n) + ['h']);
    WrapsExactly(n * 60);
  }

  lemma PeriodSpec(s: Spec)
    requires Valid(s) && s.Every? && s.minutes <= LARGEST
    ensures ParseSpec(Print(s)) == Accepted(s)
  {
    PeriodRoundTrip(s);
    NotEmpty(s);
    PeriodsAreRead(RestText(s));
  }

  lemma NotEmpty(s: Spec)
    requires Valid(s)
    ensures RestText(s) != []
  {}

  lemma ClockSpec(s: Spec)
    requires Valid(s) && !s.Every?
    ensures ParseSpec(Print(s)) == Accepted(s)
  {
    ClockRoundTrip(s);
    NotEmpty(s);
    KindIsAWord(s);
    TwoWords(KindText(s), RestText(s));
  }

  // Every schedule that can be accepted has a documented form that is read back as it; a period of
  // whole hours has two.
  lemma SpecRoundTrip(s: Spec)
    requires Valid(s) && (s.Every? ==> s.minutes <= LARGEST)
    ensures ParseSpec(Print(s)) == Accepted(s)
    ensures s.Every? && s.minutes % 60 == 0 ==> ParseSpec(HoursText(s.minutes / 60)) == Accepted(s)
  {
    if s.Every? {
      PeriodSpec(s);
      if s.minutes % 60 == 0 { HoursAreReadExactly(s.minutes / 60); }
    } else {
      ClockSpec(s);
    }
  }

  lemma WrapsToNone() returns (n: nat)
    ensures 0 < n <= LARGEST && Wrap64(n * 60) == 0
  {
    n := 0x4000_0000_0000_0000;
  }

  // A schedule that is accepted and due again at once, for ever.
  lemma AcceptedWithoutPeriod() returns (n: nat)
    ensures 0 < n <= LARGEST && ParseSpec(HoursText(n)) == Accepted(Every(0))
  {
    n := WrapsToNone();
    HoursAreReadExactly(n);
  }
}
