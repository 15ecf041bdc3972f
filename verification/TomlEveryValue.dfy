/** Every value that src/cpptoml.h reads is one of those that can be spelled. */
module TomlEveryValue {
  import opened Wrappers
  import opened Decimal
  import opened TomlDates
  import opened TomlText
  import opened TomlComments
  import opened TomlSpelling
  import opened TomlSpelledArrays
  import TomlAccepted

  // ---------------------------------------------------------------- blanks and gaps

  lemma {:induction false} BlanksOf(s: string) returns (blanks: string)
    ensures AreBlanks(blanks) && s == blanks + SkipBlanks(s)
  {
    if s != "" && IsBlank(s[0]) {
      blanks := BlanksOf(s[1..]);
      assert s == [s[0]] + s[1..];
      blanks := [s[0]] + blanks;
    } else {
      blanks := "";
    }
  }

  lemma {:induction false} GapOf(p: Place, q: Place) returns (g: Gap)
    requires SkipLines(p) == Success(q)
    ensures IsGap(g) && Put(g, q) == p && Starts(q)
    decreases |p.lines|
  {
    hide IsIdle;
    var blanks := BlanksOf(p.text);
    if q == Place(SkipBlanks(p.text), p.lines) {
      g := Gap([], blanks);
    } else {
      UsedUpIsIdle(p, q);
      var next := Place(p.lines[0], p.lines[1..]);
      g := GapOf(next, q);
      assert p.lines == [p.lines[0]] + p.lines[1..];
      LongerGap(p.text, g, q);
      g := Gap([p.text] + g.used, g.lead);
    }
  }

  lemma UsedUpIsIdle(p: Place, q: Place)
    requires SkipLines(p) == Success(q) && q != Place(SkipBlanks(p.text), p.lines)
    ensures IsIdle(p.text) && p.lines != [] && SkipLines(Place(p.lines[0], p.lines[1..])) == Success(q)
  {
  }

  lemma LongerGap(text: string, g: Gap, q: Place)
    ensures var p := Put(g, q); Put(Gap([text] + g.used, g.lead), q) == Place(text, [p.text] + p.lines)
  {
    if g.used == [] {
      assert ([text] + g.used)[1..] == [];
      assert [] + ([g.lead + q.text] + q.lines) == [g.lead + q.text] + q.lines;
    } else {
      assert ([text] + g.used)[1..] == g.used == [g.used[0]] + g.used[1..];
    }
  }

  // ---------------------------------------------------------------- strings

  lemma CodeIs(code: char)
    requires EscapeCode(code).Some?
    ensures IsChar(Code(code))
  {
    CodeKnown(code);
  }

  lemma {:induction false} CharsOf(s: string, val: string) returns (chars: seq<Char>, rest: string)
    requires LiteralBody(s, '\"', val).Success?
    ensures AreChars(chars) && s == CharsText(chars) + ("\"" + rest)
    decreases |s|
  {
    hide EscapeCode, IsChar;
    if s[0] == '\\' {
      CodeIs(s[1]);
      chars, rest := CharsOf(s[2..], val + [EscapeCode(s[1]).value]);
      assert s == ['\\', s[1]] + s[2..];
      CharsMore(Code(s[1]), chars, rest);
      chars := [Code(s[1])] + chars;
    } else if s[0] == '\"' {
      chars, rest := [], s[1..];
      assert s == "\"" + s[1..];
    } else {
      RawIs(s[0]);
      chars, rest := CharsOf(s[1..], val + [s[0]]);
      assert s == [s[0]] + s[1..];
      CharsMore(Raw(s[0]), chars, rest);
      chars := [Raw(s[0])] + chars;
    }
  }

  lemma RawIs(c: char)
    requires c != '\"' && c != '\\'
    ensures IsChar(Raw(c))
  {
  }

  lemma CharsMore(c: Char, chars: seq<Char>, rest: string)
    ensures CharsText([c] + chars) + ("\"" + rest) == CharText(c) + (CharsText(chars) + ("\"" + rest))
  {
    hide CharText;
    assert ([c] + chars)[1..] == chars;
  }

  lemma {:induction false} QuoteOf(s: string, val: string) returns (body: string, rest: string)
    requires LiteralBody(s, '\'', val).Success?
    ensures (forall i :: 0 <= i < |body| ==> body[i] != '\'') && s == body + ("'" + rest)
    decreases |s|
  {
    if s[0] == '\'' {
      body, rest := "", s[1..];
      assert s == "'" + s[1..];
    } else {
      body, rest := QuoteOf(s[1..], val + [s[0]]);
      assert s == [s[0]] + s[1..];
      body := [s[0]] + body;
    }
  }

  lemma StringOf(s: string) returns (v: Spelled, rest: string)
    requires s != "" && (s[0] == '\"' || s[0] == '\'') && ParseString(s).Success?
    ensures IsScalar(v) && !v.Truth? && MayFollow(v, rest) && s == ScalarText(v) + rest
  {
    hide LiteralBody, CharsText, AreChars;
    if s[0] == '\"' {
      var chars;
      chars, rest := CharsOf(s[1..], "");
      v := Basic(chars);
      assert s == "\"" + s[1..];
      assert s == ScalarText(v) + rest;
      if chars == [] {
        EmptyQuotes(s, rest);
      }
    } else {
      var body;
      body, rest := QuoteOf(s[1..], "");
      v := Literal(body);
      assert s == "'" + s[1..];
      assert s == ScalarText(v) + rest;
    }
  }

  lemma EmptyQuotes(s: string, rest: string)
    requires s == ScalarText(Basic([])) + rest
    ensures s == "\"\"" + rest
  {
  }

  // ---------------------------------------------------------------- numbers

  /** A digit as a group of its own, or in front of the first group. */
  lemma NewGroup(c: char, groups: seq<string>)
    requires IsDigit(c) && AreGroups(groups)
    ensures AreGroups([[c]] + groups) && GroupsText([[c]] + groups) == [c] + ("_" + GroupsText(groups))
  {
    assert ([[c]] + groups)[1..] == groups;
  }

  lemma LongerGroup(c: char, groups: seq<string>)
    requires IsDigit(c) && AreGroups(groups)
    ensures groups != [] && AreGroups([[c] + groups[0]] + groups[1..])
  {
    assert forall i :: 0 < i < |groups| ==> groups[1..][i - 1] == groups[i];
  }

  lemma LongerGroupText(c: char, groups: seq<string>)
    requires groups != []
    ensures GroupsText([[c] + groups[0]] + groups[1..]) == [c] + GroupsText(groups)
  {
    var more := [[c] + groups[0]] + groups[1..];
    assert more[1..] == groups[1..] && more[0] == [c] + groups[0];
    Shifted([c], groups[0], if |groups| == 1 then "" else "_", GroupsText(groups[1..]));
  }

  lemma Shifted(a: string, b: string, c: string, d: string)
    ensures (a + b) + c + d == a + (b + c + d)
  {
  }

  lemma {:induction false} GroupsOf(s: string) returns (groups: seq<string>, rest: string)
    requires EatNumbers(s).Success?
    ensures AreGroups(groups) && s == GroupsText(groups) + rest && |GroupsText(groups)| == EatNumbers(s).value
    ensures rest == "" || (!IsDigit(rest[0]) && rest[0] != '_')
    decreases |s|
  {
    hide GroupsText, AreGroups;
    assert s == [s[0]] + s[1..];
    if |s| > 1 && s[1] == '_' {
      groups, rest := GroupsOf(s[2..]);
      assert s == [s[0]] + ("_" + s[2..]);
      NewGroup(s[0], groups);
      groups := [[s[0]]] + groups;
    } else if |s| > 1 && IsDigit(s[1]) {
      groups, rest := GroupsOf(s[1..]);
      LongerGroup(s[0], groups);
      LongerGroupText(s[0], groups);
      groups := [[s[0]] + groups[0]] + groups[1..];
    } else {
      OneGroup(s[0]);
      groups, rest := [[s[0]]], s[1..];
    }
  }

  lemma OneGroup(c: char)
    requires IsDigit(c)
    ensures AreGroups([[c]]) && GroupsText([[c]]) == [c]
  {
    assert [[c]][1..] == [];
  }

  lemma SignedRange(sign: string, digits: string)
    requires sign in {"", "+", "-"} && digits != "" && AllDigits(digits) && ToInt64(sign + digits).Success?
    ensures var n: int := Accumulate(digits, 0); IsInt64(if sign == "-" then -n else n)
  {
    var s := sign + digits;
    DigitCountIs(digits, "");
    assert digits + "" == digits && digits[..|digits|] == digits;
    assert IsDigit(digits[0]);
    if sign == "" {
      assert s == digits;
    } else {
      assert s[0] == sign[0] && s[1..] == digits;
    }
  }

  lemma KindIsNoDate(s: string)
    ensures KindOf(s) == Success(KInt) ==> !IsDate(s)
    ensures KindOf(s) == Success(KDate) ==> IsDate(s)
    ensures KindOf(s) == Success(KBool) ==> s != "" && (s[0] == 't' || s[0] == 'f')
    ensures KindOf(s) == Success(KString) ==> s != "" && (s[0] == '\"' || s[0] == '\'')
    ensures KindOf(s) == Success(KArray) ==> s != "" && s[0] == '['
  {
    hide IsDate;
  }

  function SignOf(s: string): string {
    if s != "" && (s[0] == '-' || s[0] == '+') then [s[0]] else ""
  }

  lemma NumberParts(s: string)
    requires ParseNumber(s).Success?
    ensures var sign := SignOf(s);
            && sign in {"", "+", "-"} && |sign| <= |s| && s == sign + s[|sign|..]
            && EatNumbers(s[|sign|..]).Success?
            && var n := |sign| + EatNumbers(s[|sign|..]).value;
               Peek(s[n..]) !in {'.', 'e', 'E'} && ToInt64(Compact(s[..n])).Success?
  {
    hide EatNumbers, ToInt64, Compact;
  }

  lemma NumberOf(s: string) returns (v: Spelled, rest: string)
    requires KindOf(s) == Success(KInt) && ParseNumber(s).Success?
    ensures IsScalar(v) && !v.Truth? && MayFollow(v, rest) && s == ScalarText(v) + rest
  {
    hide EatNumbers, ToInt64, Compact, GroupsText, AreGroups, KindOf, IsDate, NumberMeans, ParseNumber, SignOf;
    KindIsNoDate(s);
    NumberParts(s);
    var sign := SignOf(s);
    var groups;
    groups, rest := GroupsOf(s[|sign|..]);
    v := Number(sign, groups);
    NumberJoined(sign, GroupsText(groups), rest, s);
    NumberInRange(sign, groups, s, rest);
  }

  lemma NumberJoined(sign: string, digits: string, rest: string, s: string)
    requires s == sign + (digits + rest)
    ensures s == sign + digits + rest && s[|sign| + |digits|..] == rest
  {
  }

  lemma NumberInRange(sign: string, groups: seq<string>, s: string, rest: string)
    requires sign in {"", "+", "-"} && AreGroups(groups) && s == sign + GroupsText(groups) + rest
    requires ToInt64(Compact(s[..|sign| + |GroupsText(groups)|])).Success?
    ensures IsInt64(NumberMeans(sign, groups))
  {
    hide ToInt64, Compact, GroupsText, Joined;
    assert s[..|sign| + |GroupsText(groups)|] == sign + GroupsText(groups);
    GroupsCompact(groups);
    JoinedDigits(groups);
    UnderscoreCompact();
    CompactAppend(sign, GroupsText(groups));
    SignedRange(sign, Joined(groups));
  }

  // ---------------------------------------------------------------- booleans

  lemma {:induction false} WordEnds(s: string)
    ensures EndsWord(s[BoolLength(s)..])
  {
    if s != "" && !IsBlank(s[0]) && s[0] != '#' {
      WordEnds(s[1..]);
      assert s[1 + BoolLength(s[1..])..] == s[1..][BoolLength(s[1..])..];
    }
  }

  lemma TruthOf(s: string) returns (v: Spelled, rest: string)
    requires s != "" && ParseBool(s).Success?
    ensures IsScalar(v) && MayFollow(v, rest) && s == ScalarText(v) + rest
  {
    var n := BoolLength(s);
    WordEnds(s);
    v, rest := Truth(s[..n] == "true"), s[n..];
    assert s == s[..n] + s[n..];
  }

  // ---------------------------------------------------------------- dates

  lemma LastDigit(s: string)
    requires s != "" && AllDigits(s)
    ensures AllDigits(s[..|s| - 1]) && IsDigit(s[|s| - 1])
    ensures Accumulate(s, 0) == 10 * Accumulate(s[..|s| - 1], 0) + DigitValue(s[|s| - 1])
  {
    var front, last := s[..|s| - 1], s[|s| - 1..];
    assert s == front + last && last[1..] == "";
    AccumulateAppend(front, last, 0);
    assert Accumulate(last, Accumulate(front, 0)) == 10 * Accumulate(front, 0) + DigitValue(last[0]);
  }

  /** Numerals of one length with one value are the same. */
  lemma {:induction false} DigitsUnique(a: string, b: string)
    requires AllDigits(a) && AllDigits(b) && |a| == |b| && Accumulate(a, 0) == Accumulate(b, 0)
    ensures a == b
    decreases |a|
  {
    hide Accumulate;
    if a != "" {
      var n := |a| - 1;
      LastDigit(a);
      LastDigit(b);
      DigitsUnique(a[..n], b[..n]);
      assert a == a[..n] + [a[n]] && b == b[..n] + [b[n]];
    }
  }

  lemma {:induction false} DigitsBelow(s: string)
    requires AllDigits(s)
    ensures Accumulate(s, 0) < Power10(|s|)
    decreases |s|
  {
    hide Accumulate;
    if s != "" {
      LastDigit(s);
      DigitsBelow(s[..|s| - 1]);
    } else {
      NothingIsZero();
    }
  }

  lemma NothingIsZero()
    ensures Accumulate("", 0) == 0
  {
  }

  lemma {:induction false} EatenDigits(s: string, len: nat, acc: nat)
    requires EatDigits(s, len, acc).Success?
    ensures len <= |s| && AllDigits(s[..len])
    ensures EatDigits(s, len, acc).value == (Accumulate(s[..len], acc), s[len..])
  {
    if len > 0 {
      EatenDigits(s[1..], len - 1, 10 * acc + DigitValue(s[0]));
      assert s[..len] == [s[0]] + s[1..][..len - 1];
      assert s[1..][len - 1..] == s[len..];
    } else {
      assert s[..0] == "" && s[0..] == s;
    }
  }

  lemma ColumnOf(s: string, w: nat)
    requires 0 < w && EatDigits(s, w, 0).Success?
    ensures var (n, rest) := EatDigits(s, w, 0).value; n < Power10(w) && s == Padded(n, w) + rest
  {
    hide Padded, EatDigits, Accumulate;
    EatenDigits(s, w, 0);
    var n := Accumulate(s[..w], 0);
    DigitsBelow(s[..w]);
    PaddedIs(n, w);
    DigitsUnique(Padded(n, w), s[..w]);
    assert s == s[..w] + s[w..];
  }

  lemma EatenChar(s: string, c: char)
    requires Eat(s, c).Success?
    ensures s == [c] + Eat(s, c).value
  {
  }

  lemma DayOf(s: string)
    requires EatDay(s).Success?
    ensures var (y, m, d, rest) := EatDay(s).value;
            && y <= 9999 && m <= 99 && d <= 99
            && s == Padded(y, 4) + "-" + Padded(m, 2) + "-" + Padded(d, 2) + rest
  {
    hide EatDigits, Padded, Eat;
    var y := EatDigits(s, 4, 0).value;
    ColumnOf(s, 4);
    EatenChar(y.1, '-');
    var s1 := Eat(y.1, '-').value;
    ColumnOf(s1, 2);
    var m := EatDigits(s1, 2, 0).value;
    EatenChar(m.1, '-');
    var s2 := Eat(m.1, '-').value;
    ColumnOf(s2, 2);
    Columns();
    FiveJoined(Padded(y.0, 4), "-", Padded(m.0, 2), "-", Padded(EatDigits(s2, 2, 0).value.0, 2),
               EatDigits(s2, 2, 0).value.1);
  }

  lemma FiveJoined(a: string, b: string, c: string, d: string, e: string, rest: string)
    ensures a + b + c + d + e + rest == a + (b + (c + (d + (e + rest))))
  {
  }

  lemma ClockOf(s: string)
    requires EatClock(s).Success?
    ensures var (h, m, sec, rest) := EatClock(s).value;
            && h <= 99 && m <= 99 && sec <= 99
            && s == Padded(h, 2) + ":" + Padded(m, 2) + ":" + Padded(sec, 2) + rest
  {
    hide EatDigits, Padded, Eat;
    var h := EatDigits(s, 2, 0).value;
    ColumnOf(s, 2);
    EatenChar(h.1, ':');
    var s1 := Eat(h.1, ':').value;
    ColumnOf(s1, 2);
    var m := EatDigits(s1, 2, 0).value;
    EatenChar(m.1, ':');
    var s2 := Eat(m.1, ':').value;
    ColumnOf(s2, 2);
    Columns();
    FiveJoined(Padded(h.0, 2), ":", Padded(m.0, 2), ":", Padded(EatDigits(s2, 2, 0).value.0, 2),
               EatDigits(s2, 2, 0).value.1);
  }

  lemma FractionOf(s: string) returns (fraction: Option<string>)
    ensures fraction.Some? ==> AllDigits(fraction.value)
    ensures var (n, rest) := EatFraction(s);
            && s == (if fraction.Some? then "." + fraction.value else "") + rest
            && n == (if fraction.Some? then Natural(fraction.value) else 0)
  {
    hide Accumulate;
    if s != "" && s[0] == '.' {
      var k := DigitCount(s[1..]);
      fraction := Some(s[1..][..k]);
      assert s == "." + s[1..][..k] + s[1 + k..];
    } else {
      fraction := None;
      assert s == "" + s;
    }
  }

  lemma ZoneOf(s: string) returns (zone: Zone)
    requires s != "" && EatOffset(s).Success? && EatOffset(s).value.2 == ""
    ensures zone.Offset? ==> zone.hours <= 99 && zone.minutes <= 99
    ensures ZoneText(zone) == s
    ensures var day := DateTime(0, 0, 0, 0, 0, 0, 0, 0, 0);
            var d := MomentMeans(day, None, zone);
            EatOffset(s).value == (d.hourOffset, d.minuteOffset, "")
  {
    hide EatDigits, Padded, Eat;
    if s[0] == '+' || s[0] == '-' {
      var h := EatDigits(s[1..], 2, 0).value;
      ColumnOf(s[1..], 2);
      EatenChar(h.1, ':');
      var t := Eat(h.1, ':').value;
      ColumnOf(t, 2);
      var m := EatDigits(t, 2, 0).value;
      Columns();
      zone := Offset(s[0] == '+', h.0, m.0);
      assert s == [s[0]] + s[1..];
      assert m.1 == "" && Padded(m.0, 2) + "" == Padded(m.0, 2);
      assert [s[0]] + Padded(h.0, 2) + ":" + Padded(m.0, 2) == [s[0]] + (Padded(h.0, 2) + (":" + Padded(m.0, 2)));
    } else {
      zone := Zulu;
      assert s == [s[0]] + s[1..];
    }
  }

  lemma RunOf(s: string) returns (day: DateTime, fraction: Option<string>, zone: Zone)
    requires ParseDateRun(s).Success?
    ensures IsScalar(Moment(day, fraction, zone)) && s == MomentText(day, fraction, zone)
  {
    hide EatDay, EatClock, EatFraction, EatOffset, Eat, Padded, ZoneText, Accumulate;
    var (y, mo, dd, s1) := EatDay(s).value;
    DayOf(s);
    EatenChar(s1, 'T');
    var s2 := Eat(s1, 'T').value;
    var (h, mi, sec, s3) := EatClock(s2).value;
    ClockOf(s2);
    fraction := FractionOf(s3);
    var s4 := EatFraction(s3).1;
    zone := ZoneOf(s4);
    day := DateTime(y, mo, dd, h, mi, sec, 0, 0, 0);
    var f := if fraction.Some? then "." + fraction.value else "";
    assert s == DayText(day) + ("T" + (ClockText(day) + (f + ZoneText(zone))));
    assert s == DayText(day) + "T" + ClockText(day) + f + ZoneText(zone);
  }

  lemma MomentOf(s: string) returns (v: Spelled, rest: string)
    requires DateValue(s).Success?
    ensures IsScalar(v) && !v.Truth? && MayFollow(v, rest) && s == ScalarText(v) + rest
  {
    hide ParseDateRun, MomentText;
    var n := DateLength(s);
    var day, fraction, zone := RunOf(s[..n]);
    v, rest := Moment(day, fraction, zone), s[n..];
    assert s == s[..n] + s[n..];
  }

  // ---------------------------------------------------------------- scalars and arrays

  lemma ScalarOf(p: Place) returns (v: Spelled, after: Place)
    requires ParseValue(p).Success? && KindOf(p.text) != Success(KArray)
    ensures Fits(v, after) && Spell(v, after) == p
  {
    hide KindOf, ParseArray, ParseString, ParseNumber, ParseBool, DateValue, ScalarText, IsScalar, MayFollow;
    KindIsNoDate(p.text);
    var rest;
    match KindOf(p.text).value {
      case KString => v, rest := StringOf(p.text);
      case KInt => v, rest := NumberOf(p.text);
      case KBool => v, rest := TruthOf(p.text);
      case KDate => v, rest := MomentOf(p.text);
    }
    after := Place(rest, p.lines);
    ListedIsNoScalar(v);
  }

  lemma ListedIsNoScalar(v: Spelled)
    requires IsScalar(v)
    ensures !v.Listed?
  {
  }

  lemma SkipShrinks(p: Place)
    requires SkipLines(p).Success?
    ensures Size(SkipLines(p).value) <= Size(p)
  {
  }

  lemma FirstGone(p: Place)
    requires p.text != ""
    ensures Size(Place(p.text[1..], p.lines)) < Size(p)
    ensures Before([p.text[0]], Place(p.text[1..], p.lines)) == p
  {
    assert p.text == [p.text[0]] + p.text[1..];
  }

  /** Any value that is read has a spelling. */
  lemma {:induction false} ValueOf(p: Place) returns (v: Spelled, after: Place)
    requires ParseValue(p).Success?
    ensures Fits(v, after) && Spell(v, after) == p
    decreases Size(p), 1
  {
    hide KindOf, Fits, Spell, ParseArray;
    if KindOf(p.text) == Success(KArray) {
      KindIsNoDate(p.text);
      v, after := ArrayOf(p);
    } else {
      v, after := ScalarOf(p);
    }
  }

  lemma {:induction false} ArrayOf(p: Place) returns (v: Spelled, after: Place)
    requires p.text != "" && p.text[0] == '[' && ParseArray(p).Success?
    ensures v.Listed? && Fits(v, after) && Spell(v, after) == p
    decreases Size(p), 0
  {
    hide KindOf, SkipLines, ParseValues, ParseArrays, Size, FirstValueLength, IsGap, Put, FitItems, SpellItems;
    FirstGone(p);
    var p1 := Place(p.text[1..], p.lines);
    var q := SkipLines(p1).value;
    SkipShrinks(p1);
    var g := GapOf(p1, q);
    var items := Done;
    if q.text[0] == ']' {
      after := Place(q.text[1..], q.lines);
      FirstGone(q);
      DoneFits(after);
    } else {
      var kind := KindOf(q.text[..FirstValueLength(q.text)]).value;
      if kind.KArray? {
        items, after := ArraysOf(q, []);
      } else {
        items, after := ItemsOf(q, kind, []);
      }
      KindOfFirst(items, kind, after);
    }
    v := Listed(g, items);
  }

  lemma DoneFits(after: Place)
    ensures FitItems(Done, KInt, after) && SpellItems(Done, after) == Before("]", after) && KindOfItems(Done) == KInt
  {
  }

  lemma KindOfFirst(items: Items, kind: Kind, after: Place)
    requires FitItems(items, kind, after) && !items.Done?
    ensures KindOfItems(items) == kind
  {
    hide Fits, Put, SpellItems, IsGap;
  }

  lemma NotDone(items: Items, after: Place)
    requires SpellItems(items, after).text != "" && SpellItems(items, after).text[0] != ']'
    ensures !items.Done?
  {
    hide Spell, Put;
  }

  lemma {:induction false} ItemsOf(p: Place, kind: Kind, vs: seq<Value>) returns (items: Items, after: Place)
    requires ParseValues(p, kind, vs).Success? && p.text != "" && kind in {KString, KInt, KDate}
    ensures FitItems(items, kind, after) && SpellItems(items, after) == p && (p.text[0] != ']' ==> !items.Done?)
    decreases Size(p), 2
  {
    hide KindOf, SkipLines, ParseValue, Size, Put, Spell, Fits, IsGap;
    if p.text[0] == ']' {
      items, after := Done, Place(p.text[1..], p.lines);
      FirstGone(p);
    } else {
      var v, a := ValueOf(p);
      ValueReads(v, a);
      LeftSkips(v, a);
      var q := SkipLines(a).value;
      var g := GapOf(a, q);
      FirstGone(q);
      SkipShrinks(Left(v, a));
      var r := Place(q.text[1..], q.lines);
      if q.text[0] != ',' {
        items, after := Final(v, g, q.text[0]), r;
      } else {
        var q' := SkipLines(r).value;
        var h := GapOf(r, q');
        SkipShrinks(r);
        var rest;
        rest, after := ItemsOf(q', kind, vs + [Means(v)]);
        items := More(v, g, h, rest);
      }
    }
  }

  lemma {:induction false} ArraysOf(p: Place, vs: seq<Value>) returns (items: Items, after: Place)
    requires ParseArrays(p, vs).Success? && p.text != ""
    ensures FitItems(items, KArray, after) && SpellItems(items, after) == p && (p.text[0] != ']' ==> !items.Done?)
    decreases Size(p), 2
  {
    hide KindOf, SkipLines, ParseArray, Size, Put, Spell, Fits, IsGap;
    if p.text[0] == ']' {
      items, after := Done, Place(p.text[1..], p.lines);
      FirstGone(p);
    } else {
      var v, a := ArrayOf(p);
      ArrayReads(v, a);
      var q := SkipLines(a).value;
      var g := GapOf(a, q);
      FirstGone(q);
      SkipShrinks(a);
      var r := Place(q.text[1..], q.lines);
      if q.text[0] != ',' {
        items, after := Final(v, g, q.text[0]), r;
      } else {
        var q' := SkipLines(r).value;
        var h := GapOf(r, q');
        SkipShrinks(r);
        var rest;
        rest, after := ArraysOf(q', vs + [Means(v)]);
        items := More(v, g, h, rest);
      }
    }
  }
}
