/** Dates of src/cpptoml.h: how they are printed and read (RFC 3339, section 5.6). */
module TomlDates {
  import opened Wrappers
  import opened Decimal

  datatype DateTime = DateTime(year: int, month: int, day: int, hour: int, minute: int, second: int,
                               microsecond: int, hourOffset: int, minuteOffset: int)

  // ---------------------------------------------------------------- printing

  function Abs(n: int): (a: int)
    ensures a >= 0
  {
    if n < 0 then -n else n
  }

  function Zeros(n: nat): (s: string)
    ensures |s| == n && AllDigits(s)
  {
    if n == 0 then "" else "0" + Zeros(n - 1)
  }

  /** `setw(w)` with the fill character 0. */
  function Padded(n: int, w: nat): string {
    var t := IntText(n);
    if |t| < w then Zeros(w - |t|) + t else t
  }

  function OffsetText(d: DateTime): string {
    if d.hourOffset != 0 || d.minuteOffset != 0 then
      (if d.hourOffset > 0 then "+" else "-") + Padded(Abs(d.hourOffset), 2) + ":" + Padded(Abs(d.minuteOffset), 2)
    else "Z"
  }

  function FractionText(d: DateTime): string {
    if d.microsecond > 0 then "." + Padded(d.microsecond, 6) else ""
  }

  function ClockText(d: DateTime): string {
    Padded(d.hour, 2) + ":" + Padded(d.minute, 2) + ":" + Padded(d.second, 2)
  }

  function DayText(d: DateTime): string {
    Padded(d.year, 4) + "-" + Padded(d.month, 2) + "-" + Padded(d.day, 2)
  }

  function DateText(d: DateTime): string {
    DayText(d) + "T" + ClockText(d) + FractionText(d) + OffsetText(d)
  }

  // ---------------------------------------------------------------- reading

  predicate IsDateChar(c: char) {
    IsDigit(c) || c == 'T' || c == 'Z' || c == ':' || c == '-' || c == '+' || c == '.'
  }

  /** find_end_of_date, as a length. */
  function DateLength(s: string): (n: nat)
    ensures n <= |s| && (n < |s| ==> !IsDateChar(s[n]))
    ensures forall i :: 0 <= i < n ==> IsDateChar(s[i])
  {
    if s == "" || !IsDateChar(s[0]) then 0 else 1 + DateLength(s[1..])
  }

  /** The lookahead: long enough, with the separators in their places. */
  predicate IsDate(s: string) {
    var n := DateLength(s);
    n >= 20 && s[4] == '-' && s[7] == '-' && s[10] == 'T' && s[13] == ':' && s[16] == ':'
  }

  function EatDigits(s: string, len: nat, acc: nat): Result<(nat, string)>
    decreases len
  {
    if len == 0 then Success((acc, s))
    else if s == "" || !IsDigit(s[0]) then Failure
    else EatDigits(s[1..], len - 1, 10 * acc + DigitValue(s[0]))
  }

  function Eat(s: string, c: char): Result<string> {
    if s != "" && s[0] == c then Success(s[1..]) else Failure
  }

  /** The fraction: any number of digits. */
  function EatFraction(s: string): (nat, string) {
    if s != "" && s[0] == '.' then
      var k := DigitCount(s[1..]);
      (Accumulate(s[1..][..k], 0), s[1 + k..])
    else (0, s)
  }

  /** The offset, as signed hours and minutes. */
  function EatOffset(s: string): Result<(int, int, string)>
    requires s != ""
  {
    if s[0] == '+' || s[0] == '-' then
      var h :- EatDigits(s[1..], 2, 0);
      var t :- Eat(h.1, ':');
      var m :- EatDigits(t, 2, 0);
      var (hours: int, minutes: int) := (h.0, m.0);
      Success(if s[0] == '+' then (hours, minutes, m.1) else (-hours, -minutes, m.1))
    else if s[0] == 'Z' then Success((0, 0, s[1..]))
    else Success((0, 0, s))
  }

  function EatDay(s: string): Result<(nat, nat, nat, string)> {
    var y :- EatDigits(s, 4, 0);
    var s1 :- Eat(y.1, '-');
    var mo :- EatDigits(s1, 2, 0);
    var s2 :- Eat(mo.1, '-');
    var d :- EatDigits(s2, 2, 0);
    Success((y.0, mo.0, d.0, d.1))
  }

  function EatClock(s: string): Result<(nat, nat, nat, string)> {
    var h :- EatDigits(s, 2, 0);
    var s1 :- Eat(h.1, ':');
    var m :- EatDigits(s1, 2, 0);
    var s2 :- Eat(m.1, ':');
    var sec :- EatDigits(s2, 2, 0);
    Success((h.0, m.0, sec.0, sec.1))
  }

  /** The whole of a run of date characters. */
  function ParseDateRun(s: string): Result<DateTime> {
    var day :- EatDay(s);
    var t :- Eat(day.3, 'T');
    var clock :- EatClock(t);
    var (micro, rest) := EatFraction(clock.3);
    if rest == "" then Failure
    else
      var off :- EatOffset(rest);
      if off.2 != "" then Failure
      else Success(DateTime(day.0, day.1, day.2, clock.0, clock.1, clock.2, micro, off.0, off.1))
  }

  function ParseDate(s: string): Result<(DateTime, string)> {
    var n := DateLength(s);
    var d :- ParseDateRun(s[..n]);
    Success((d, s[n..]))
  }

  // ---------------------------------------------------------------- reading what was printed

  /** Field values that fill their columns. */
  predicate InRange(d: DateTime) {
    && 0 <= d.year <= 9999
    && 0 <= d.month <= 99 && 0 <= d.day <= 99
    && 0 <= d.hour <= 99 && 0 <= d.minute <= 99 && 0 <= d.second <= 99
    && 0 <= d.microsecond
    && -99 <= d.hourOffset <= 99 && -99 <= d.minuteOffset <= 99
  }

  /** What reading a printed date gives: one sign for both parts of the offset. */
  function SeenDate(d: DateTime): DateTime {
    d.(minuteOffset := if d.hourOffset > 0 then Abs(d.minuteOffset) else -Abs(d.minuteOffset))
  }

  /** The offsets agree in sign, and a positive one has at least one hour. */
  predicate WellSigned(d: DateTime) {
    if d.hourOffset > 0 then d.minuteOffset >= 0 else d.minuteOffset <= 0
  }

  lemma {:induction false} EatDigitsIs(s: string, rest: string, acc: nat)
    requires AllDigits(s)
    ensures EatDigits(s + rest, |s|, acc) == Success((Accumulate(s, acc), rest))
  {
    if s == "" {
      assert s + rest == rest;
    } else {
      assert (s + rest)[1..] == s[1..] + rest;
      EatDigitsIs(s[1..], rest, 10 * acc + DigitValue(s[0]));
    }
  }

  lemma {:induction false} ZerosAddNothing(n: nat)
    ensures Accumulate(Zeros(n), 0) == 0
  {
    if n > 0 {
      assert Zeros(n)[1..] == Zeros(n - 1);
      ZerosAddNothing(n - 1);
    }
  }

  lemma PaddedIs(n: nat, w: nat)
    requires 0 < w && n < Power10(w)
    ensures |Padded(n, w)| == w && AllDigits(Padded(n, w)) && Accumulate(Padded(n, w), 0) == n
  {
    DecLength(n, w);
    AccumulateDec(n);
    if |Dec(n)| < w {
      ZerosAddNothing(w - |Dec(n)|);
      AccumulateAppend(Zeros(w - |Dec(n)|), Dec(n), 0);
    }
  }

  lemma Columns()
    ensures Power10(2) == 100 && Power10(4) == 10_000
  {
    assert Power10(1) == 10;
    assert Power10(2) == 100;
    assert Power10(3) == 1000;
  }

  lemma ReadColumn(n: nat, w: nat, rest: string)
    requires (w == 2 && n <= 99) || (w == 4 && n <= 9999)
    ensures EatDigits(Padded(n, w) + rest, w, 0) == Success((n, rest))
    ensures |Padded(n, w)| == w && AllDigits(Padded(n, w))
  {
    Columns();
    PaddedIs(n, w);
    EatDigitsIs(Padded(n, w), rest, 0);
  }

  lemma EatIs(c: char, rest: string)
    ensures Eat([c] + rest, c) == Success(rest)
  {
  }

  lemma ReadDay(d: DateTime, rest: string)
    requires InRange(d)
    ensures EatDay(DayText(d) + rest) == Success((d.year, d.month, d.day, rest))
  {
    hide EatDigits, Padded, Eat;
    var y, mo, dd := Padded(d.year, 4), Padded(d.month, 2), Padded(d.day, 2);
    var t2 := "-" + (dd + rest);
    var t1 := "-" + (mo + t2);
    assert DayText(d) + rest == y + t1;
    ReadColumn(d.year, 4, t1);
    EatIs('-', mo + t2);
    ReadColumn(d.month, 2, t2);
    EatIs('-', dd + rest);
    ReadColumn(d.day, 2, rest);
  }

  lemma ReadClock(d: DateTime, rest: string)
    requires InRange(d)
    ensures EatClock(ClockText(d) + rest) == Success((d.hour, d.minute, d.second, rest))
  {
    hide EatDigits, Padded, Eat;
    var h, m, s := Padded(d.hour, 2), Padded(d.minute, 2), Padded(d.second, 2);
    var t2 := ":" + (s + rest);
    var t1 := ":" + (m + t2);
    assert ClockText(d) + rest == h + t1;
    ReadColumn(d.hour, 2, t1);
    EatIs(':', m + t2);
    ReadColumn(d.minute, 2, t2);
    EatIs(':', s + rest);
    ReadColumn(d.second, 2, rest);
  }

  lemma FractionDigits(n: nat)
    ensures AllDigits(Padded(n, 6)) && Accumulate(Padded(n, 6), 0) == n
  {
    AccumulateDec(n);
    if |Dec(n)| < 6 {
      ZerosAddNothing(6 - |Dec(n)|);
      AccumulateAppend(Zeros(6 - |Dec(n)|), Dec(n), 0);
    }
  }

  lemma ReadFraction(d: DateTime, rest: string)
    requires InRange(d) && rest != "" && !IsDigit(rest[0]) && rest[0] != '.'
    ensures EatFraction(FractionText(d) + rest) == (d.microsecond, rest)
  {
    if d.microsecond > 0 {
      var p := Padded(d.microsecond, 6);
      FractionDigits(d.microsecond);
      assert (FractionText(d) + rest)[1..] == p + rest;
      DigitCountIs(p, rest);
      assert (p + rest)[..|p|] == p;
      assert (FractionText(d) + rest)[1 + |p|..] == rest;
    } else {
      assert FractionText(d) + rest == rest;
    }
  }

  lemma ReadOffset(d: DateTime)
    requires InRange(d)
    ensures OffsetText(d) != "" && !IsDigit(OffsetText(d)[0]) && OffsetText(d)[0] != '.'
    ensures EatOffset(OffsetText(d)) == Success((d.hourOffset, SeenDate(d).minuteOffset, ""))
  {
    hide EatDigits, Padded, Eat;
    if d.hourOffset != 0 || d.minuteOffset != 0 {
      var h, m := Padded(Abs(d.hourOffset), 2), Padded(Abs(d.minuteOffset), 2);
      var t := ":" + m;
      assert OffsetText(d)[1..] == h + t;
      ReadColumn(Abs(d.hourOffset), 2, t);
      EatIs(':', m);
      assert m + "" == m;
      ReadColumn(Abs(d.minuteOffset), 2, "");
    }
  }

  lemma ReadDateRun(d: DateTime)
    requires InRange(d)
    ensures ParseDateRun(DateText(d)) == Success(SeenDate(d))
  {
    hide EatDay, EatClock, EatFraction, EatOffset, Eat, DayText, ClockText, FractionText, OffsetText;
    var t3 := OffsetText(d);
    var t2 := FractionText(d) + t3;
    var t1 := ClockText(d) + t2;
    assert DateText(d) == DayText(d) + ("T" + t1);
    ReadDay(d, "T" + t1);
    EatIs('T', t1);
    ReadClock(d, t2);
    ReadOffset(d);
    ReadFraction(d, t3);
  }

  predicate AllDateChars(s: string) {
    forall i :: 0 <= i < |s| ==> IsDateChar(s[i])
  }

  lemma DigitsAreDateChars(s: string)
    requires AllDigits(s)
    ensures AllDateChars(s)
  {
    assert forall i :: 0 <= i < |s| ==> IsDigit(s[i]);
  }

  lemma AppendDateChars(a: string, b: string)
    requires AllDateChars(a) && AllDateChars(b)
    ensures AllDateChars(a + b)
  {
  }

  lemma DayChars(d: DateTime)
    requires InRange(d)
    ensures var t := DayText(d); AllDateChars(t) && |t| == 10 && t[4] == '-' && t[7] == '-'
  {
    hide Padded;
    ReadColumn(d.year, 4, "");
    ReadColumn(d.month, 2, "");
    ReadColumn(d.day, 2, "");
    DigitsAreDateChars(Padded(d.year, 4));
    DigitsAreDateChars(Padded(d.month, 2));
    DigitsAreDateChars(Padded(d.day, 2));
  }

  lemma ClockChars(d: DateTime)
    requires InRange(d)
    ensures var t := ClockText(d); AllDateChars(t) && |t| == 8 && t[2] == ':' && t[5] == ':'
  {
    hide Padded;
    ReadColumn(d.hour, 2, "");
    ReadColumn(d.minute, 2, "");
    ReadColumn(d.second, 2, "");
    DigitsAreDateChars(Padded(d.hour, 2));
    DigitsAreDateChars(Padded(d.minute, 2));
    DigitsAreDateChars(Padded(d.second, 2));
  }

  lemma DateTextChars(d: DateTime)
    requires InRange(d)
    ensures AllDateChars(DateText(d))
    ensures IsDatePrefix(DateText(d))
  {
    hide DayText, ClockText, FractionText, OffsetText;
    DayChars(d);
    ClockChars(d);
    TailChars(d);
    AppendDateChars(DayText(d), "T");
    AppendDateChars(DayText(d) + "T", ClockText(d));
    AppendDateChars(DayText(d) + "T" + ClockText(d), FractionText(d));
    AppendDateChars(DayText(d) + "T" + ClockText(d) + FractionText(d), OffsetText(d));
    Positions(DayText(d), ClockText(d), FractionText(d), OffsetText(d));
  }

  lemma Positions(a: string, b: string, c: string, e: string)
    requires |a| == 10 && a[4] == '-' && a[7] == '-' && |b| == 8 && b[2] == ':' && b[5] == ':' && e != ""
    ensures IsDatePrefix(a + "T" + b + c + e)
  {
    var t := a + "T" + b + c + e;
    assert t[13] == b[2] && t[16] == b[5];
  }

  /** The separators are in their places and there is something behind the clock. */
  predicate IsDatePrefix(s: string) {
    |s| >= 20 && s[4] == '-' && s[7] == '-' && s[10] == 'T' && s[13] == ':' && s[16] == ':'
  }

  lemma TailChars(d: DateTime)
    requires InRange(d)
    ensures AllDateChars(FractionText(d)) && AllDateChars(OffsetText(d)) && OffsetText(d) != ""
  {
    hide Padded;
    ReadColumn(Abs(d.hourOffset), 2, "");
    ReadColumn(Abs(d.minuteOffset), 2, "");
    DigitsAreDateChars(Padded(Abs(d.hourOffset), 2));
    DigitsAreDateChars(Padded(Abs(d.minuteOffset), 2));
    if d.microsecond > 0 {
      FractionDigits(d.microsecond);
      DigitsAreDateChars(Padded(d.microsecond, 6));
    }
  }

  lemma {:induction false} DateLengthIs(s: string, rest: string)
    requires AllDateChars(s) && (rest != "" ==> !IsDateChar(rest[0]))
    ensures DateLength(s + rest) == |s|
  {
    if s == "" {
      assert s + rest == rest;
    } else {
      assert (s + rest)[1..] == s[1..] + rest;
      DateLengthIs(s[1..], rest);
    }
  }

  /** A printed date is classified as a date and read back, up to the sign of its minute offset. */
  lemma ReadPrintedDate(d: DateTime, rest: string)
    requires InRange(d) && (rest != "" ==> !IsDateChar(rest[0]))
    ensures IsDate(DateText(d) + rest)
    ensures ParseDate(DateText(d) + rest) == Success((SeenDate(d), rest))
  {
    hide ParseDateRun, DateText;
    var t := DateText(d);
    DateTextChars(d);
    DateLengthIs(t, rest);
    ReadDateRun(d);
    assert (t + rest)[..|t|] == t && (t + rest)[|t|..] == rest;
  }

  /** Printing and reading is the identity exactly for well-signed offsets. */
  lemma DateRoundTrip(d: DateTime, rest: string)
    requires InRange(d) && (rest != "" ==> !IsDateChar(rest[0]))
    ensures ParseDate(DateText(d) + rest) == Success((d, rest)) <==> WellSigned(d)
  {
    hide ParseDate, DateText, IsDate;
    ReadPrintedDate(d, rest);
  }

  /** A fraction is read as the number its digits make, in microseconds. That is the fraction of a second it denotes,
      f / 10^|f| == m / 10^6, exactly when it has six digits or is zero. */
  lemma FractionMeaning(f: string, rest: string)
    requires AllDigits(f) && (rest != "" ==> !IsDigit(rest[0]))
    ensures EatFraction("." + f + rest) == (Accumulate(f, 0), rest)
    ensures Accumulate(f, 0) * Power10(6) == Accumulate(f, 0) * Power10(|f|) <==> |f| == 6 || Accumulate(f, 0) == 0
  {
    hide Power10, Accumulate;
    FractionRead(f, rest);
    if Accumulate(f, 0) != 0 {
      SameFactor(Accumulate(f, 0), Power10(6), Power10(|f|));
      PowersDiffer(6, |f|);
    }
  }

  lemma FractionRead(f: string, rest: string)
    requires AllDigits(f) && (rest != "" ==> !IsDigit(rest[0]))
    ensures EatFraction("." + f + rest) == (Accumulate(f, 0), rest)
  {
    hide Accumulate;
    var s := "." + f + rest;
    assert s[1..] == f + rest;
    DigitCountIs(f, rest);
    assert (f + rest)[..|f|] == f && s[1 + |f|..] == rest;
  }

  lemma SameFactor(m: int, a: int, b: int)
    requires m != 0
    ensures m * a == m * b <==> a == b
  {
  }

  lemma {:induction false} PowersDiffer(i: nat, j: nat)
    ensures Power10(i) == Power10(j) <==> i == j
  {
    if i > 0 && j > 0 {
      PowersDiffer(i - 1, j - 1);
    }
  }

  /** Half a second is read as five microseconds. */
  lemma HalfASecond()
    ensures EatFraction(".5Z") == (5, "Z")
  {
    FractionMeaning("5", "Z");
    assert "." + "5" + "Z" == ".5Z";
    assert Accumulate("5", 0) == 5;
  }

  /** Half an hour east of Greenwich comes back as half an hour west of it. */
  lemma LostSign()
    ensures var d := DateTime(2016, 2, 29, 12, 0, 0, 0, 0, 30);
            InRange(d) && ParseDate(DateText(d)) == Success((d.(minuteOffset := -30), ""))
  {
    hide ParseDate, DateText;
    var d := DateTime(2016, 2, 29, 12, 0, 0, 0, 0, 30);
    ReadPrintedDate(d, "");
    assert DateText(d) + "" == DateText(d);
  }
}
