/** The ways in which users spell values for src/cpptoml.h, and what each of them stands for. */
module TomlSpelling {
  import opened Wrappers
  import opened Decimal
  import opened TomlDates
  import opened TomlText
  import opened TomlComments

  // ---------------------------------------------------------------- spellings

  /** A character of a string in double quotes: itself, or an escape code behind a backslash. */
  datatype Char = Raw(c: char) | Code(code: char)

  datatype Zone = Zulu | Offset(east: bool, hours: nat, minutes: nat)

  /** White space and comments: what uses up the current line, idle lines, and blanks on the line that goes on. */
  datatype Gap = Gap(used: seq<string>, lead: string)

  datatype Spelled =
    | Basic(chars: seq<Char>)
    | Literal(s: string)
    | Number(sign: string, groups: seq<string>)  // groups of digits with underscores between them
    | Truth(b: bool)
    | Moment(day: DateTime, fraction: Option<string>, zone: Zone)
    | Listed(open: Gap, items: Items)

  /** What stands behind the opening bracket of an array: its end, a last value and what closes the array, or a value, a
      comma and more. */
  datatype Items =
    | Done
    | Final(last: Spelled, before: Gap, closer: char)
    | More(first: Spelled, before: Gap, behind: Gap, rest: Items)

  function CharText(c: Char): string {
    match c
    case Raw(c) => [c]
    case Code(code) => ['\\', code]
  }

  function CharsText(chars: seq<Char>): string {
    if chars == [] then "" else CharText(chars[0]) + CharsText(chars[1..])
  }

  function GroupsText(groups: seq<string>): string {
    if groups == [] then ""
    else groups[0] + (if |groups| == 1 then "" else "_") + GroupsText(groups[1..])
  }

  function ZoneText(zone: Zone): string {
    match zone
    case Zulu => "Z"
    case Offset(east, hours, minutes) => (if east then "+" else "-") + Padded(hours, 2) + ":" + Padded(minutes, 2)
  }

  function MomentText(day: DateTime, fraction: Option<string>, zone: Zone): string {
    DayText(day) + "T" + ClockText(day) + (if fraction.Some? then "." + fraction.value else "") + ZoneText(zone)
  }

  function ScalarText(v: Spelled): string
    requires !v.Listed?
  {
    match v
    case Basic(chars) => "\"" + CharsText(chars) + "\""
    case Literal(s) => "'" + s + "'"
    case Number(sign, groups) => sign + GroupsText(groups)
    case Truth(b) => if b then "true" else "false"
    case Moment(day, fraction, zone) => MomentText(day, fraction, zone)
  }

  /** `text` in front of what follows. */
  function Before(text: string, after: Place): Place {
    Place(text + after.text, after.lines)
  }

  function Put(g: Gap, after: Place): Place {
    if g.used == [] then Before(g.lead, after)
    else Place(g.used[0], g.used[1..] + ([g.lead + after.text] + after.lines))
  }

  /** The spelling of a value and what follows it. */
  function Spell(v: Spelled, after: Place): Place {
    if v.Listed? then Before("[", Put(v.open, SpellItems(v.items, after))) else Before(ScalarText(v), after)
  }

  function SpellItems(items: Items, after: Place): Place {
    match items
    case Done => Before("]", after)
    case Final(v, before, closer) => Spell(v, Put(before, Before([closer], after)))
    case More(v, before, behind, rest) =>
      Spell(v, Put(before, Before(",", Put(behind, SpellItems(rest, after)))))
  }

  // ---------------------------------------------------------------- what they stand for

  /** The escape codes of section "String" of TOML that the reader knows. */
  function CodeMeans(code: char): Option<char> {
    if code == 'b' then Some(8 as char)
    else if code == 't' then Some(9 as char)
    else if code == 'n' then Some(10 as char)
    else if code == 'f' then Some(12 as char)
    else if code == 'r' then Some(13 as char)
    else if code == '\"' || code == '\\' then Some(code)
    else None
  }

  function CharMeans(c: Char): string {
    match c
    case Raw(c) => [c]
    case Code(code) => if CodeMeans(code).Some? then [CodeMeans(code).value] else ""
  }

  function CharsMean(chars: seq<Char>): string {
    if chars == [] then "" else CharMeans(chars[0]) + CharsMean(chars[1..])
  }

  function Joined(groups: seq<string>): string {
    if groups == [] then "" else groups[0] + Joined(groups[1..])
  }

  lemma {:induction false} JoinedDigits(groups: seq<string>)
    requires forall i :: 0 <= i < |groups| ==> AllDigits(groups[i])
    ensures AllDigits(Joined(groups))
  {
    if groups != [] {
      JoinedDigits(groups[1..]);
    }
  }

  /** The number that a text of digits denotes. */
  function Natural(digits: string): nat {
    if AllDigits(digits) then Accumulate(digits, 0) else 0
  }

  function NumberMeans(sign: string, groups: seq<string>): int {
    var n: int := Natural(Joined(groups));
    if sign == "-" then -n else n
  }

  function MomentMeans(day: DateTime, fraction: Option<string>, zone: Zone): DateTime {
    var micro := if fraction.Some? then Natural(fraction.value) else 0;
    match zone
    case Zulu => day.(microsecond := micro, hourOffset := 0, minuteOffset := 0)
    case Offset(east, hours, minutes) =>
      var (h: int, m: int) := (hours, minutes);
      if east then day.(microsecond := micro, hourOffset := h, minuteOffset := m)
      else day.(microsecond := micro, hourOffset := -h, minuteOffset := -m)
  }

  function KindSpelled(v: Spelled): Kind {
    match v
    case Basic(_) => KString
    case Literal(_) => KString
    case Number(_, _) => KInt
    case Truth(_) => KBool
    case Moment(_, _, _) => KDate
    case Listed(_, _) => KArray
  }

  function Means(v: Spelled): (r: Value)
    ensures KindFor(r) == KindSpelled(v)
  {
    match v
    case Basic(chars) => Str(CharsMean(chars))
    case Literal(s) => Str(s)
    case Number(sign, groups) => Int(NumberMeans(sign, groups))
    case Truth(b) => Bool(b)
    case Moment(day, fraction, zone) => Date(MomentMeans(day, fraction, zone))
    case Listed(_, items) => Arr(ItemsMean(items))
  }

  function ItemsMean(items: Items): seq<Value> {
    match items
    case Done => []
    case Final(v, _, _) => [Means(v)]
    case More(v, _, _, rest) => [Means(v)] + ItemsMean(rest)
  }

  // ---------------------------------------------------------------- which of them are well formed

  predicate AreGroups(groups: seq<string>) {
    groups != [] && forall i :: 0 <= i < |groups| ==> groups[i] != "" && AllDigits(groups[i])
  }

  predicate AreBlanks(s: string) {
    forall i :: 0 <= i < |s| ==> IsBlank(s[i])
  }

  predicate IsGap(g: Gap) {
    AreBlanks(g.lead) && forall i :: 0 <= i < |g.used| ==> IsIdle(g.used[i])
  }

  predicate IsChar(c: Char) {
    match c
    case Raw(c) => c != '\"' && c != '\\'
    case Code(code) => CodeMeans(code).Some?
  }

  predicate AreChars(chars: seq<Char>) {
    forall i :: 0 <= i < |chars| ==> IsChar(chars[i])
  }

  predicate IsScalar(v: Spelled) {
    match v
    case Basic(chars) => AreChars(chars)
    case Literal(s) => forall i :: 0 <= i < |s| ==> s[i] != '\''
    case Number(sign, groups) =>
      sign in {"", "+", "-"} && AreGroups(groups)
      && -0x8000_0000_0000_0000 <= NumberMeans(sign, groups) < 0x8000_0000_0000_0000
    case Truth(_) => true
    case Moment(day, fraction, zone) =>
      && InRange(day) && (fraction.Some? ==> AllDigits(fraction.value))
      && (zone.Offset? ==> zone.hours <= 99 && zone.minutes <= 99)
    case Listed(_, _) => false
  }

  /** What may stand directly behind a scalar, so that it ends there and is not taken for something else. */
  predicate MayFollow(v: Spelled, rest: string) {
    match v
    case Basic(chars) => chars == [] ==> Peek(rest) != '\"'
    case Literal(s) => s == "" ==> Peek(rest) != '\''
    case Number(_, _) => EndsNumber(rest) && !IsDate(ScalarText(v) + rest)
    case Truth(_) => EndsWord(rest)
    case Moment(_, _, _) => rest == "" || !IsDateChar(rest[0])
    case Listed(_, _) => true
  }

  predicate EndsNumber(rest: string) {
    rest == "" || (!IsDigit(rest[0]) && rest[0] !in {'_', '.', 'e', 'E'})
  }

  /** A boolean ends where blanks, a comment or the end of the line begin. */
  predicate EndsWord(rest: string) {
    rest == "" || IsBlank(rest[0]) || rest[0] == '#'
  }

  // ---------------------------------------------------------------- gaps

  lemma {:induction false} BlanksSkipped(blanks: string, s: string)
    requires AreBlanks(blanks)
    ensures SkipBlanks(blanks + s) == SkipBlanks(s)
  {
    if blanks == "" {
      assert blanks + s == s;
    } else {
      assert (blanks + s)[1..] == blanks[1..] + s;
      BlanksSkipped(blanks[1..], s);
    }
  }

  predicate Starts(p: Place) {
    p.text != "" && !IsBlank(p.text[0]) && p.text[0] != '#'
  }

  /** A gap is passed over. */
  lemma GapSkipped(g: Gap, after: Place)
    requires IsGap(g) && Starts(after)
    ensures SkipLines(Put(g, after)) == Success(after)
  {
    hide SkipLines;
    if g.used == [] {
      LeadSkipped(g.lead, after);
    } else {
      UsedSkipped(g.used, g.lead, after);
    }
  }

  lemma LeadSkipped(lead: string, after: Place)
    requires AreBlanks(lead) && Starts(after)
    ensures SkipLines(Place(lead + after.text, after.lines)) == Success(after)
  {
    BlanksSkipped(lead, after.text);
  }

  lemma {:induction false} UsedSkipped(used: seq<string>, lead: string, after: Place)
    requires used != [] && AreBlanks(lead) && Starts(after) && forall i :: 0 <= i < |used| ==> IsIdle(used[i])
    ensures SkipLines(Place(used[0], used[1..] + ([lead + after.text] + after.lines))) == Success(after)
    decreases |used|
  {
    hide SkipLines, IsIdle;
    var more := used[1..] + ([lead + after.text] + after.lines);
    UsedUp(used[0], more);
    if |used| == 1 {
      assert more == [lead + after.text] + after.lines;
      LeadSkipped(lead, after);
    } else {
      assert more[0] == used[1] && more[1..] == used[1..][1..] + ([lead + after.text] + after.lines);
      UsedSkipped(used[1..], lead, after);
    }
  }

  // ---------------------------------------------------------------- strings

  lemma CodeKnown(code: char)
    ensures EscapeCode(code) == CodeMeans(code)
  {
  }

  lemma CharRead(c: Char, more: string, val: string)
    requires IsChar(c)
    ensures LiteralBody(CharText(c) + more, '\"', val) == LiteralBody(more, '\"', val + CharMeans(c))
  {
    hide EscapeCode, CodeMeans;
    var text := CharText(c) + more;
    match c
    case Raw(_) => assert text[1..] == more;
    case Code(code) =>
      CodeKnown(code);
      assert text[2..] == more;
  }

  lemma {:induction false} CharsRead(chars: seq<Char>, rest: string, val: string)
    requires AreChars(chars)
    ensures LiteralBody(CharsText(chars) + ("\"" + rest), '\"', val)
         == Success((val + CharsMean(chars), SkipBlanks(rest)))
  {
    hide LiteralBody, CharText, CharMeans, IsChar;
    var tail := "\"" + rest;
    if chars == [] {
      assert "" + tail == tail && val + "" == val;
      QuoteEnds('\"', rest, val);
    } else {
      var c, t, m := chars[0], CharsText(chars[1..]), CharsMean(chars[1..]);
      assert CharsText(chars) + tail == CharText(c) + (t + tail);
      CharRead(c, t + tail, val);
      CharsRead(chars[1..], rest, val + CharMeans(c));
      assert val + CharMeans(c) + m == val + (CharMeans(c) + m);
    }
  }

  lemma QuoteEnds(delim: char, rest: string, val: string)
    requires delim != '\\'
    ensures LiteralBody([delim] + rest, delim, val) == Success((val, SkipBlanks(rest)))
  {
    assert ([delim] + rest)[1..] == rest;
  }

  lemma {:induction false} QuoteRead(s: string, rest: string, val: string)
    requires forall i :: 0 <= i < |s| ==> s[i] != '\''
    ensures LiteralBody(s + ("'" + rest), '\'', val) == Success((val + s, SkipBlanks(rest)))
  {
    hide SkipBlanks;
    var tail := "'" + rest;
    if s == "" {
      assert s + tail == tail && tail[1..] == rest && val + s == val;
    } else {
      assert (s + tail)[1..] == s[1..] + tail;
      QuoteRead(s[1..], rest, val + [s[0]]);
      assert val + [s[0]] + s[1..] == val + s;
    }
  }

  lemma BasicReads(chars: seq<Char>, rest: string)
    requires AreChars(chars) && MayFollow(Basic(chars), rest)
    ensures ParseString(ScalarText(Basic(chars)) + rest) == Success((Str(CharsMean(chars)), SkipBlanks(rest)))
  {
    hide LiteralBody, SkipBlanks, CharsText, CharsMean, AreChars;
    var text := ScalarText(Basic(chars)) + rest;
    QuotedIs(CharsText(chars), rest);
    CharsRead(chars, rest, "");
    assert "" + CharsMean(chars) == CharsMean(chars);
    NotTripled(chars, rest);
  }

  lemma QuotedIs(s: string, rest: string)
    ensures var text := "\"" + s + "\"" + rest; text[0] == '\"' && text[1..] == s + ("\"" + rest)
  {
  }

  lemma NotTripled(chars: seq<Char>, rest: string)
    requires AreChars(chars) && MayFollow(Basic(chars), rest)
    ensures var text := ScalarText(Basic(chars)) + rest;
            text[0] == '\"' && !(|text| > 2 && text[1] == text[0] && text[2] == text[0])
  {
    var text := ScalarText(Basic(chars)) + rest;
    if chars == [] {
      assert text == "\"\"" + rest;
    } else {
      assert text[1] == CharsText(chars)[0] != '\"';
    }
  }

  lemma LiteralReads(s: string, rest: string)
    requires IsScalar(Literal(s)) && MayFollow(Literal(s), rest)
    ensures ParseString(ScalarText(Literal(s)) + rest) == Success((Str(s), SkipBlanks(rest)))
  {
    hide LiteralBody, SkipBlanks;
    var text := ScalarText(Literal(s)) + rest;
    assert text[1..] == s + ("'" + rest);
    QuoteRead(s, rest, "");
    assert "" + s == s;
    NotThree(s, rest);
  }

  lemma NotThree(s: string, rest: string)
    requires IsScalar(Literal(s)) && MayFollow(Literal(s), rest)
    ensures var text := ScalarText(Literal(s)) + rest;
            text[0] == '\'' && !(|text| > 2 && text[1] == text[0] && text[2] == text[0])
  {
    var text := ScalarText(Literal(s)) + rest;
    if s == "" {
      assert text == "''" + rest;
    } else {
      assert text[1] == s[0];
    }
  }

  // ---------------------------------------------------------------- numbers

  lemma {:induction false} LastGroupEaten(group: string, rest: string)
    requires group != "" && AllDigits(group) && (rest != "" ==> !IsDigit(rest[0]) && rest[0] != '_')
    ensures EatNumbers(group + rest) == Success(|group|)
  {
    var t := group + rest;
    if |group| > 1 {
      assert t[1..] == group[1..] + rest && t[1] == group[1];
      LastGroupEaten(group[1..], rest);
    } else {
      assert rest != "" ==> t[1] == rest[0];
    }
  }

  lemma {:induction false} GroupEaten(group: string, more: string)
    requires group != "" && AllDigits(group) && more != "" && IsDigit(more[0]) && EatNumbers(more).Success?
    ensures EatNumbers(group + ("_" + more)) == Success(|group| + 1 + EatNumbers(more).value)
  {
    var t := group + ("_" + more);
    if |group| > 1 {
      assert t[1..] == group[1..] + ("_" + more) && t[1] == group[1];
      GroupEaten(group[1..], more);
    } else {
      assert t[1] == '_' && t[2] == more[0] && t[2..] == more;
    }
  }

  lemma {:induction false} GroupsEaten(groups: seq<string>, rest: string)
    requires AreGroups(groups) && (rest != "" ==> !IsDigit(rest[0]) && rest[0] != '_')
    ensures GroupsText(groups) != "" && IsDigit(GroupsText(groups)[0])
    ensures EatNumbers(GroupsText(groups) + rest) == Success(|GroupsText(groups)|)
  {
    hide EatNumbers;
    assert IsDigit(groups[0][0]);
    if |groups| == 1 {
      assert GroupsText(groups) == groups[0] + "" + "" == groups[0];
      LastGroupEaten(groups[0], rest);
    } else {
      var more := GroupsText(groups[1..]);
      GroupsEaten(groups[1..], rest);
      assert GroupsText(groups) + rest == groups[0] + ("_" + (more + rest));
      GroupEaten(groups[0], more + rest);
    }
  }

  lemma {:induction false} CompactAppend(a: string, b: string)
    ensures Compact(a + b) == Compact(a) + Compact(b)
  {
    if a == "" {
      assert a + b == b;
    } else {
      assert (a + b)[1..] == a[1..] + b;
      CompactAppend(a[1..], b);
    }
  }

  lemma {:induction false} DigitsCompact(s: string)
    requires AllDigits(s)
    ensures Compact(s) == s
  {
    if s != "" {
      DigitsCompact(s[1..]);
      assert s == [s[0]] + s[1..];
    }
  }

  lemma {:induction false} GroupsCompact(groups: seq<string>)
    requires AreGroups(groups)
    ensures Compact(GroupsText(groups)) == Joined(groups) && Joined(groups) != ""
  {
    hide Compact;
    DigitsCompact(groups[0]);
    if |groups| == 1 {
      assert GroupsText(groups) == groups[0] + "" + "" == groups[0];
      assert groups[1..] == [] && Joined(groups) == groups[0] + "" == groups[0];
    } else {
      var more := GroupsText(groups[1..]);
      GroupsCompact(groups[1..]);
      UnderscoreCompact();
      CompactAppend(groups[0], "_");
      CompactAppend(groups[0] + "_", more);
      assert groups[0] + "" == groups[0];
    }
  }

  lemma UnderscoreCompact()
    ensures Compact("_") == "" && Compact("+") == "+" && Compact("-") == "-" && Compact("") == ""
  {
    assert Compact("") == "";
    assert "_"[1..] == "" && "+"[1..] == "" && "-"[1..] == "";
  }

  lemma SignedValue(sign: string, digits: string)
    requires sign in {"", "+", "-"} && digits != "" && AllDigits(digits)
    requires var n: int := Accumulate(digits, 0); IsInt64(if sign == "-" then -n else n)
    ensures var n: int := Accumulate(digits, 0); ToInt64(sign + digits) == Success(if sign == "-" then -n else n)
  {
    var s := sign + digits;
    DigitCountIs(digits, "");
    assert digits + "" == digits && digits[..|digits|] == digits;
    assert IsDigit(digits[0]);
    if sign == "" {
      assert s == digits;
    } else {
      assert s[0] == sign[0] && s[1..] == digits;
    }
  }

  lemma NumberReads(sign: string, groups: seq<string>, rest: string)
    requires IsScalar(Number(sign, groups)) && EndsNumber(rest)
    ensures ParseNumber(ScalarText(Number(sign, groups)) + rest) == Success((Int(NumberMeans(sign, groups)), rest))
  {
    hide EatNumbers, Compact, ToInt64, GroupsText, Joined, Accumulate;
    var text, digits := sign + GroupsText(groups) + rest, GroupsText(groups);
    GroupsEaten(groups, rest);
    GroupsCompact(groups);
    JoinedDigits(groups);
    UnderscoreCompact();
    CompactAppend(sign, digits);
    SignedValue(sign, Joined(groups));
    NumberSlices(sign, digits, rest);
    assert "" + Joined(groups) == Joined(groups);
  }

  lemma NumberSlices(sign: string, digits: string, rest: string)
    requires digits != ""
    ensures var s := sign + digits + rest;
      && s != "" && s[0] == (if sign == "" then digits[0] else sign[0])
      && s[|sign|..] == digits + rest
      && s[..|sign| + |digits|] == sign + digits && s[|sign| + |digits|..] == rest
  {
  }

  // ---------------------------------------------------------------- booleans

  lemma {:induction false} WordLength(word: string, rest: string)
    requires (forall i :: 0 <= i < |word| ==> !IsBlank(word[i]) && word[i] != '#') && EndsWord(rest)
    ensures BoolLength(word + rest) == |word|
  {
    if word == "" {
      assert word + rest == rest;
    } else {
      assert (word + rest)[1..] == word[1..] + rest;
      WordLength(word[1..], rest);
    }
  }

  lemma TruthReads(b: bool, rest: string)
    requires EndsWord(rest)
    ensures ParseBool(ScalarText(Truth(b)) + rest) == Success((Bool(b), rest))
  {
    var word := if b then "true" else "false";
    WordLength(word, rest);
    assert (word + rest)[..|word|] == word && (word + rest)[|word|..] == rest;
  }

  // ---------------------------------------------------------------- dates

  lemma ZoneReads(zone: Zone)
    requires zone.Offset? ==> zone.hours <= 99 && zone.minutes <= 99
    ensures var t := ZoneText(zone); var d := MomentMeans(DateTime(0, 0, 0, 0, 0, 0, 0, 0, 0), None, zone);
            && t != "" && !IsDigit(t[0]) && t[0] != '.' && AllDateChars(t)
            && EatOffset(t) == Success((d.hourOffset, d.minuteOffset, ""))
  {
    hide EatDigits, Padded, Eat;
    if zone.Offset? {
      var h, m := Padded(zone.hours, 2), Padded(zone.minutes, 2);
      var t := ":" + m;
      assert ZoneText(zone)[1..] == h + t;
      ReadColumn(zone.hours, 2, t);
      EatIs(':', m);
      assert m + "" == m;
      ReadColumn(zone.minutes, 2, "");
      DigitsAreDateChars(h);
      DigitsAreDateChars(m);
    }
  }

  lemma FractionReads(fraction: Option<string>, rest: string)
    requires fraction.Some? ==> AllDigits(fraction.value)
    requires rest != "" && !IsDigit(rest[0]) && rest[0] != '.'
    ensures var t := if fraction.Some? then "." + fraction.value else "";
            && EatFraction(t + rest) == (if fraction.Some? then Accumulate(fraction.value, 0) else 0, rest)
            && AllDateChars(t)
  {
    if fraction.Some? {
      FractionRead(fraction.value, rest);
      DigitsAreDateChars(fraction.value);
    } else {
      assert "" + rest == rest;
    }
  }

  lemma MomentRun(day: DateTime, fraction: Option<string>, zone: Zone)
    requires IsScalar(Moment(day, fraction, zone))
    ensures ParseDateRun(MomentText(day, fraction, zone)) == Success(MomentMeans(day, fraction, zone))
  {
    hide EatDay, EatClock, EatFraction, EatOffset, Eat, DayText, ClockText, ZoneText, Accumulate;
    var t3 := ZoneText(zone);
    var f := if fraction.Some? then "." + fraction.value else "";
    var t2 := f + t3;
    var t1 := ClockText(day) + t2;
    assert MomentText(day, fraction, zone) == DayText(day) + ("T" + t1);
    ReadDay(day, "T" + t1);
    EatIs('T', t1);
    ReadClock(day, t2);
    ZoneReads(zone);
    FractionReads(fraction, t3);
  }

  lemma MomentChars(day: DateTime, fraction: Option<string>, zone: Zone)
    requires IsScalar(Moment(day, fraction, zone))
    ensures var t := MomentText(day, fraction, zone); t != "" && AllDateChars(t) && IsDatePrefix(t)
  {
    hide DayText, ClockText, ZoneText, Accumulate, Eat, EatFraction, EatOffset;
    var f := if fraction.Some? then "." + fraction.value else "";
    DayChars(day);
    ClockChars(day);
    ZoneReads(zone);
    FractionReads(fraction, ZoneText(zone));
    AppendDateChars(DayText(day), "T");
    AppendDateChars(DayText(day) + "T", ClockText(day));
    AppendDateChars(DayText(day) + "T" + ClockText(day), f);
    AppendDateChars(DayText(day) + "T" + ClockText(day) + f, ZoneText(zone));
    Positions(DayText(day), ClockText(day), f, ZoneText(zone));
  }

  lemma MomentReads(day: DateTime, fraction: Option<string>, zone: Zone, rest: string)
    requires IsScalar(Moment(day, fraction, zone)) && (rest == "" || !IsDateChar(rest[0]))
    ensures var t := MomentText(day, fraction, zone);
            && IsDate(t + rest)
            && DateValue(t + rest) == Success((Date(MomentMeans(day, fraction, zone)), rest))
  {
    hide ParseDateRun, MomentText, MomentMeans;
    var t := MomentText(day, fraction, zone);
    MomentChars(day, fraction, zone);
    DateLengthIs(t, rest);
    MomentRun(day, fraction, zone);
    assert (t + rest)[..|t|] == t && (t + rest)[|t|..] == rest;
  }

  // ---------------------------------------------------------------- kinds

  predicate AllNumeric(s: string) {
    forall i :: 0 <= i < |s| ==> IsDigit(s[i]) || s[i] == '_'
  }

  lemma {:induction false} GroupsNumeric(groups: seq<string>)
    requires AreGroups(groups)
    ensures AllNumeric(GroupsText(groups))
  {
    assert forall i :: 0 <= i < |groups[0]| ==> IsDigit(groups[0][i]);
    if |groups| > 1 {
      GroupsNumeric(groups[1..]);
    }
  }

  lemma NoDateInNumber(sign: string, digits: string, rest: string)
    requires sign in {"", "+", "-"} && AllNumeric(digits) && (rest != "" ==> !IsDateChar(rest[0]))
    ensures !IsDate(sign + digits + rest)
  {
    var s, k := sign + digits + rest, |sign + digits|;
    assert k < |s| ==> s[k] == rest[0];
    if k > 4 {
      assert s[4] == digits[4 - |sign|];
    }
  }

  lemma {:induction false} NoPointInNumber(digits: string, rest: string)
    requires AllNumeric(digits) && (rest != "" ==> !IsDigit(rest[0]) && rest[0] != '.')
    ensures Peek((digits + rest)[DigitCount(digits + rest)..]) != '.'
  {
    var s := digits + rest;
    if digits == "" {
      assert s == rest && s[0..] == s;
    } else if IsDigit(digits[0]) {
      assert s[1..] == digits[1..] + rest;
      NoPointInNumber(digits[1..], rest);
      assert s[1 + DigitCount(s[1..])..] == s[1..][DigitCount(s[1..])..];
    } else {
      assert s[0..] == s;
    }
  }

  lemma NumberKindIs(sign: string, groups: seq<string>, rest: string)
    requires IsScalar(Number(sign, groups)) && MayFollow(Number(sign, groups), rest)
    ensures KindOf(ScalarText(Number(sign, groups)) + rest) == Success(KInt)
  {
    hide Accumulate, GroupsText, IsDate, DigitCount, NumberMeans, AreGroups, AllNumeric, KindOf;
    var text, digits := sign + GroupsText(groups) + rest, GroupsText(groups);
    GroupsEaten(groups, rest);
    GroupsNumeric(groups);
    NumberSlices(sign, digits, rest);
    NoPointInNumber(digits, rest);
    assert sign == "" ==> text == digits + rest;
    assert sign != "" ==> text[1..] == digits + rest;
    NumericKind(text, digits + rest);
  }

  lemma NumericKind(s: string, digits: string)
    requires s != "" && !IsDate(s) && (IsDigit(s[0]) || s[0] == '-' || s[0] == '+')
    requires digits == (if s[0] == '-' || s[0] == '+' then s[1..] else s)
    requires Peek(digits[DigitCount(digits)..]) != '.'
    ensures KindOf(s) == Success(KInt)
  {
    hide IsDate, DigitCount;
  }

  lemma FirstCharKind(s: string)
    requires s != "" && (s[0] in {'\"', '\'', '[', 't', 'f'})
    ensures KindOf(s) == Success(if s[0] == '\"' || s[0] == '\'' then KString
                                 else if s[0] == '[' then KArray else KBool)
  {
    hide NumberKind;
    assert DateLength(s) == 0;
  }

  lemma MomentKindIs(day: DateTime, fraction: Option<string>, zone: Zone, rest: string)
    requires IsScalar(Moment(day, fraction, zone)) && (rest == "" || !IsDateChar(rest[0]))
    ensures MomentText(day, fraction, zone) != ""
    ensures KindOf(MomentText(day, fraction, zone) + rest) == Success(KDate)
  {
    hide MomentText, IsDate, NumberKind, DateValue, MomentMeans;
    var t := MomentText(day, fraction, zone);
    MomentChars(day, fraction, zone);
    MomentReads(day, fraction, zone, rest);
    assert (t + rest)[0] == t[0] && IsDateChar(t[0]);
  }

  lemma ScalarKind(v: Spelled, rest: string)
    requires IsScalar(v) && MayFollow(v, rest)
    ensures ScalarText(v) != "" && KindOf(ScalarText(v) + rest) == Success(KindSpelled(v))
  {
    hide KindOf, MomentText, GroupsText, Accumulate, CharsText;
    if v.Number? {
      GroupsEaten(v.groups, "");
      NumberKindIs(v.sign, v.groups, rest);
    } else if v.Moment? {
      MomentKindIs(v.day, v.fraction, v.zone, rest);
    } else {
      FirstCharKind(ScalarText(v) + rest);
    }
  }

  // ---------------------------------------------------------------- scalars

  /** Where the reader stands behind a value: blanks behind a string are gone. */
  function Left(v: Spelled, after: Place): Place {
    if v.Basic? || v.Literal? then Place(SkipBlanks(after.text), after.lines) else after
  }

  lemma ScalarReads(v: Spelled, after: Place)
    requires IsScalar(v) && MayFollow(v, after.text)
    ensures ParseValue(Before(ScalarText(v), after)) == Success((Means(v), Left(v, after)))
  {
    hide KindOf, ParseArray, ParseString, ParseNumber, ParseBool, DateValue, MomentText, GroupsText, CharsText,
         MomentMeans, NumberMeans;
    ScalarKind(v, after.text);
    match v
    case Basic(chars) => BasicReads(chars, after.text);
    case Literal(s) => LiteralReads(s, after.text);
    case Number(sign, groups) => NumberReads(sign, groups, after.text);
    case Truth(b) => TruthReads(b, after.text);
    case Moment(day, fraction, zone) => MomentReads(day, fraction, zone, after.text);
  }
}
