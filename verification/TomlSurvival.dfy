/** Reading, writing and reading again: which tables that src/cpptoml.h accepts survive being written by it. */
module TomlSurvival {
  import opened Wrappers
  import opened Decimal
  import opened TomlDates
  import opened TomlText
  import opened TomlValues
  import opened TomlKeys
  import opened TomlTree
  import opened TomlListing
  import opened TomlPrinter
  import opened TomlReader
  import opened TomlRoundTrip
  import opened TomlAccepted

  /** Every date has a well-signed offset. */
  predicate LastingValue(v: Value) {
    match v
    case Date(d) => WellSigned(d)
    case Arr(vs) => forall i :: 0 <= i < |vs| ==> LastingValue(vs[i])
    case _ => true
  }

  const LASTING := Test((k, later) => k != "", (c: Content) => c.Plain? ==> LastingValue(c.v))

  /** No empty key, and no date but well-signed ones. */
  predicate Lasting(t: Listing) {
    Every(t, LASTING)
  }

  // ---------------------------------------------------------------- what is accepted lacks only that

  lemma {:induction false} ProperIs(v: Value)
    requires ProperValue(v)
    ensures InRangeValue(v) && (ReadableValue(v) <==> LastingValue(v))
  {
    match v
    case Arr(vs) =>
      forall i | 0 <= i < |vs|
        ensures InRangeValue(vs[i]) && (ReadableValue(vs[i]) <==> LastingValue(vs[i]))
      {
        ProperIs(vs[i]);
      }
    case _ =>
  }

  /** One entry and the others. */
  lemma AcceptedSplit(items: seq<Entry>, named: bool)
    requires items != [] && items[0].key !in Keys(items[1..]) && Accepted(Table(ForgetItems(items)), named)
    ensures (named ==> items[0].key != "") && AcceptedNode(ForgetContent(items[0].content), named)
    ensures Accepted(Table(ForgetItems(items[1..])), named)
  {
    hide AcceptedNode, ForgetContent;
    var m, rest := ForgetItems(items), ForgetItems(items[1..]);
    assert m[items[0].key] == ForgetContent(items[0].content);
    assert forall k :: k in rest ==> k in m && m[k] == rest[k];
  }

  /** An accepted listing is sound; it can be written and read back if it is lasting, and only then. */
  lemma {:induction false} AcceptedIs(t: Listing, named: bool)
    requires Distinct(t) && Accepted(Forget(t), named)
    ensures Sound(t) && (named ==> Named(t)) && (Named(t) && Readable(t) <==> Lasting(t))
    decreases t
  {
    ItemsAccepted(t.items, named);
  }

  lemma {:induction false} ItemsAccepted(items: seq<Entry>, named: bool)
    requires EveryItems(items, DISTINCT) && Accepted(Table(ForgetItems(items)), named)
    ensures EveryItems(items, SOUND) && (named ==> EveryItems(items, NAMED))
    ensures EveryItems(items, NAMED) && EveryItems(items, READABLE) <==> EveryItems(items, LASTING)
    decreases items
  {
    hide Keys, Accepted, AcceptedNode, ForgetContent, ForgetItems;
    if items != [] {
      AcceptedSplit(items, named);
      ItemsAccepted(items[1..], named);
      ContentAccepted(items[0].content, named);
    }
  }

  lemma {:induction false} ContentAccepted(c: Content, named: bool)
    requires EveryContent(c, DISTINCT) && AcceptedNode(ForgetContent(c), named)
    ensures EveryContent(c, SOUND) && (named ==> EveryContent(c, NAMED))
    ensures EveryContent(c, NAMED) && EveryContent(c, READABLE) <==> EveryContent(c, LASTING)
    decreases c
  {
    match c
    case Plain(v) => ProperIs(v);
    case Inner(t) => AcceptedIs(t, named);
    case Series(ts) => SeriesAccepted(ts, named);
  }

  lemma {:induction false} SeriesAccepted(ts: seq<Listing>, named: bool)
    requires EverySeries(ts, DISTINCT)
    requires forall i :: 0 <= i < |ts| ==> Accepted(ForgetSeries(ts)[i], named)
    ensures EverySeries(ts, SOUND) && (named ==> EverySeries(ts, NAMED))
    ensures EverySeries(ts, NAMED) && EverySeries(ts, READABLE) <==> EverySeries(ts, LASTING)
    decreases ts
  {
    hide Accepted, Forget;
    if ts != [] {
      var f := ForgetSeries(ts);
      assert f[0] == Forget(ts[0]) && f[1..] == ForgetSeries(ts[1..]);
      assert forall i :: 0 <= i < |ts[1..]| ==> ForgetSeries(ts[1..])[i] == f[i + 1];
      AcceptedIs(ts[0], named);
      SeriesAccepted(ts[1..], named);
    }
  }

  // ---------------------------------------------------------------- no written line begins with an empty key

  lemma {:induction false} BehindTabs(n: nat, s: string)
    ensures SkipBlanks(Tabs(n) + s) == SkipBlanks(s)
  {
    if n == 0 {
      assert Tabs(n) + s == s;
    } else {
      assert (Tabs(n) + s)[1..] == Tabs(n - 1) + s;
      BehindTabs(n - 1, s);
    }
  }

  lemma NamelessItem(value: string)
    ensures !StartsNameless(SkipBlanks(KeyText("") + (" " + ("= " + value))))
  {
    assert KeyText("") + (" " + ("= " + value)) == " " + ("= " + value);
    assert (" " + ("= " + value))[1..] == "= " + value;
    assert SkipBlanks("= " + value) == "= " + value;
  }

  /** A printed key that is not empty begins with a letter or with a quote and something other than a quote. */
  lemma KeyTextStarts(key: string)
    requires key != ""
    ensures var k := KeyText(key); k != "" && !IsBlank(k[0]) && (k[0] == '\"' ==> |k| >= 2 && k[1] != '\"')
  {
    if IsBare(key) {
      assert IsBareChar(key[0]);
    } else {
      hide Escape;
      EscapeStarts(key);
    }
  }

  lemma EscapeStarts(s: string)
    requires s != ""
    ensures Escape(s) != "" && Escape(s)[0] != '\"'
  {
  }

  lemma ItemNamed(key: string, v: Value, depth: nat)
    ensures !StartsNameless(SkipBlanks(ItemLine(key, v, depth)))
  {
    hide PrintValue, KeyText, Tabs;
    var s := KeyText(key) + (" " + ("= " + PrintValue(v)));
    assert ItemLine(key, v, depth) == Tabs(depth) + s;
    BehindTabs(depth, s);
    if key == "" {
      NamelessItem(PrintValue(v));
    } else {
      KeyTextStarts(key);
    }
  }

  lemma HeaderNamed(path: seq<string>, inArray: bool)
    ensures NamedLines(HeaderLines(path, inArray))
  {
    hide PathText;
    if path != [] {
      BehindTabs(|path| - 1, HeaderText(path, inArray));
    }
  }

  lemma NamedAppend(a: seq<string>, b: seq<string>)
    requires NamedLines(a) && NamedLines(b)
    ensures NamedLines(a + b)
  {
  }

  lemma {:induction false} ValuesNamed(items: seq<Entry>, depth: nat)
    ensures NamedLines(ValueLines(items, depth))
  {
    hide ItemLine, StartsNameless, SkipBlanks;
    if items != [] {
      ValuesNamed(items[1..], depth);
      match items[0].content
      case Plain(v) => ItemNamed(items[0].key, v, depth);
      case _ =>
    }
  }

  lemma {:induction false} TableNamed(t: Listing, path: seq<string>, inArray: bool)
    ensures NamedLines(TableLines(t, path, inArray))
    decreases t, 1
  {
    hide NamedLines, HeaderLines, ValueLines, SubLines;
    HeaderNamed(path, inArray);
    ValuesNamed(t.items, |path|);
    SubsNamed(t.items, path);
    NamedAppend(ValueLines(t.items, |path|), SubLines(t.items, path));
    NamedAppend(HeaderLines(path, inArray), ValueLines(t.items, |path|) + SubLines(t.items, path));
  }

  lemma {:induction false} SubsNamed(items: seq<Entry>, path: seq<string>)
    ensures NamedLines(SubLines(items, path))
    decreases items, 0
  {
    hide TableLines, SeriesLines, StartsNameless, SkipBlanks;
    if items != [] {
      SubsNamed(items[1..], path);
      match items[0].content
      case Inner(t) => TableNamed(t, path + [items[0].key], false);
      case Series(ts) => SeriesNamed(ts, path + [items[0].key]);
      case _ =>
    }
  }

  lemma {:induction false} SeriesNamed(ts: seq<Listing>, path: seq<string>)
    ensures NamedLines(SeriesLines(ts, path))
    decreases ts, 0
  {
    hide TableLines, StartsNameless, SkipBlanks;
    if ts != [] {
      TableNamed(ts[0], path, true);
      SeriesNamed(ts[1..], path);
    }
  }

  /** What is read from a written text has no empty key. */
  lemma WrittenIsNamed(t: Listing)
    requires Sound(t) && Parse(Write(t)).Success?
    ensures Accepted(Parse(Write(t)).value, true)
  {
    hide Exec, Lines, Write, Accepted, TableLines, StartsEmpty, NamedLines;
    WrittenLines(t);
    TableNamed(t, [], false);
    EmptyLineNamed();
    NamedAppend(if StartsEmpty(t) then [""] else [], TableLines(t, [], false));
    NewAccepted(true);
    ExecAccepted(DocumentLines(t), Reading(EMPTY, []), true);
  }

  lemma EmptyLineNamed()
    ensures NamedLines([""]) && NamedLines([])
  {
  }

  // ---------------------------------------------------------------- the round trips in full

  /** The round trip for every table with values in range: it comes back if and only if its keys are not empty and it
      is readable. */
  lemma RoundTripExactly(t: Listing)
    requires Sound(t)
    ensures Parse(Write(t)) == Success(Forget(t)) <==> Named(t) && Readable(t)
  {
    hide Parse, Write, Forget, Every;
    WritableIs(t);
    if Named(t) {
      RoundTrip(t);
    } else if Parse(Write(t)) == Success(Forget(t)) {
      WrittenIsNamed(t);
      SoundIsDistinct(t);
      AcceptedIs(t, true);
    }
  }

  /** Read, written and read again: a table that any text has been read as comes back, in any order of iteration, if
      and only if it has no empty key and no date whose positive offset is below one hour. */
  lemma ReadWriteRead(text: string, t: Listing)
    requires Distinct(t) && Parse(text) == Success(Forget(t))
    ensures Parse(Write(t)) == Success(Forget(t)) <==> Lasting(t)
  {
    hide Parse, Write, Forget, Every, Accepted;
    ParseAccepted(text);
    AcceptedIs(t, false);
    RoundTripExactly(t);
  }

  // ---------------------------------------------------------------- accepted, but lost

  /** A text of one item. */
  lemma OneItemReads(keyText: string, key: string, valueText: string, v: Value)
    requires keyText != "" && !IsBlank(keyText[0]) && keyText[0] != '#' && keyText[0] != '['
    requires valueText != "" && !IsBlank(valueText[0]) && OneLine(keyText) && OneLine(valueText)
    requires ParseKey(keyText + (" = " + valueText), {'='}) == Success((key, "= " + valueText))
    requires ParseValue(Place(valueText, [])) == Success((v, Place("", [])))
    ensures Parse(Unlines([keyText + (" = " + valueText)])) == Success(Table(map[key := Leaf(v)]))
  {
    hide ParseKey, ParseValue, Lines, Unlines;
    var line := keyText + (" = " + valueText);
    LinesOfUnlines([line]);
    var st := Reading(EMPTY, []);
    assert ("= " + valueText)[1..] == " " + valueText && (" " + valueText)[1..] == valueText;
    assert SkipBlanks(valueText) == valueText && SkipBlanks(" " + valueText) == valueText;
    assert SkipBlanks("") == "";
    assert SkipBlanks(line) == line && [line][1..] == [];
    assert KeyValue(line, [], st) == Success((Insert(st, key, v), []));
    PutAtRoot(EMPTY, Table(EMPTY.entries[key := Leaf(v)]));
    assert Insert(st, key, v).root == Table(map[key := Leaf(v)]);
    ExecNothing(Insert(st, key, v));
  }

  /** A quoted empty key is accepted, and what the writer makes of it does not read back. */
  lemma EmptyKeyLost()
    ensures var t := Listing([Entry("", Plain(Int(1)))]);
      && Parse(Unlines(["\"\"" + (" = " + PrintValue(Int(1)))])) == Success(Forget(t))
      && Parse(Write(t)) != Success(Forget(t))
  {
    hide Parse, Write, ParseValue, ParseKey, StringLiteral, PrintValue, Unlines;
    var t := Listing([Entry("", Plain(Int(1)))]);
    var value := PrintValue(Int(1));
    KindOfPrinted(Int(1), "");
    assert value + "" == value;
    ReadPrintedValue(Int(1), "", []);
    ValueIsOneLine(Int(1));
    QuotedReads("", " = " + value);
    NamelessKey(value);
    OneItemReads("\"\"", "", value, Int(1));
    OneForgotten("", Int(1));
    ReadWriteRead(Unlines(["\"\"" + (" = " + value)]), t);
  }

  lemma NamelessKey(value: string)
    ensures ParseKey("\"\"" + (" = " + value), {'='}) == Success(("", "= " + value))
  {
    hide StringLiteral;
    assert Quoted("") == "\"\"";
    QuotedReads("", " = " + value);
    assert (" = " + value)[1..] == "= " + value;
    assert SkipBlanks(" = " + value) == "= " + value;
  }

  lemma OneForgotten(key: string, v: Value)
    ensures Forget(Listing([Entry(key, Plain(v))])) == Table(map[key := Leaf(v)])
    ensures Distinct(Listing([Entry(key, Plain(v))]))
    ensures Lasting(Listing([Entry(key, Plain(v))])) <==> key != "" && LastingValue(v)
  {
    var items := [Entry(key, Plain(v))];
    assert items[1..] == [] && Keys([]) == {};
    assert ForgetItems(items[1..]) == map[];
    assert ForgetItems(items) == map[key := Leaf(v)] + map[];
    assert EveryItems(items[1..], LASTING) && EveryItems(items[1..], DISTINCT);
    assert EveryContent(items[0].content, LASTING) <==> LastingValue(v);
    assert EveryItems(items, LASTING) <==> key != "" && LastingValue(v);
    var t := Listing(items);
    assert t.items == items;
  }

  /** A date with an offset of minutes east. */
  function EastText(d: DateTime): string {
    DayText(d) + ("T" + (ClockText(d) + ("+" + (Padded(0, 2) + (":" + Padded(Abs(d.minuteOffset), 2))))))
  }

  predicate IsEast(d: DateTime) {
    InRange(d) && d.microsecond == 0 && d.hourOffset == 0 && d.minuteOffset > 0
  }

  lemma EastRun(d: DateTime)
    requires IsEast(d)
    ensures ParseDateRun(EastText(d)) == Success(d)
  {
    hide EatDay, EatClock, EatDigits, Eat, DayText, ClockText, Padded;
    var h, m := Padded(0, 2), Padded(d.minuteOffset, 2);
    var off := "+" + (h + (":" + m));
    var t := ClockText(d) + off;
    ReadDay(d, "T" + t);
    EatIs('T', t);
    ReadClock(d, off);
    assert off[1..] == h + (":" + m) && m + "" == m;
    ReadColumn(0, 2, ":" + m);
    EatIs(':', m);
    ReadColumn(d.minuteOffset, 2, "");
  }

  lemma EastReads(d: DateTime)
    requires IsEast(d)
    ensures KindOf(EastText(d)) == Success(KDate) && DateValue(EastText(d)) == Success((Date(d), ""))
    ensures AllDateChars(EastText(d)) && EastText(d) != ""
  {
    hide DayText, ClockText, Padded, ParseDateRun, NumberKind;
    var text := EastText(d);
    var h, m := Padded(0, 2), Padded(d.minuteOffset, 2);
    DayChars(d);
    ClockChars(d);
    ReadColumn(0, 2, "");
    ReadColumn(d.minuteOffset, 2, "");
    DigitsAreDateChars(h);
    DigitsAreDateChars(m);
    AppendDateChars(":", m);
    AppendDateChars(h, ":" + m);
    AppendDateChars("+", h + (":" + m));
    AppendDateChars(ClockText(d), "+" + (h + (":" + m)));
    AppendDateChars("T", ClockText(d) + ("+" + (h + (":" + m))));
    AppendDateChars(DayText(d), "T" + (ClockText(d) + ("+" + (h + (":" + m)))));
    Positions(DayText(d), ClockText(d), "", "+" + (h + (":" + m)));
    assert text == DayText(d) + "T" + ClockText(d) + "" + ("+" + (h + (":" + m)));
    assert IsDatePrefix(text);
    DateLengthIs(text, "");
    assert text + "" == text && text[..|text|] == text && text[|text|..] == "";
    EastRun(d);
  }

  /** Any date with an offset of less than an hour east is accepted, and comes back as another date. */
  lemma EastLost(d: DateTime)
    requires IsEast(d)
    ensures var t := Listing([Entry("a", Plain(Date(d)))]);
      && Parse(Unlines(["a" + (" = " + EastText(d))])) == Success(Forget(t))
      && Parse(Write(t)) != Success(Forget(t))
  {
    hide Parse, Write, ParseKey, EastText, Unlines, KindOf, DateValue;
    var t, text := Listing([Entry("a", Plain(Date(d)))]), EastText(d);
    EastReads(d);
    assert "a" + (" " + ("= " + text)) == "a" + (" = " + text);
    assert KeyText("a") == "a";
    KeyReads("a", " ", "= " + text, {'='});
    assert ParseValue(Place(text, [])) == Success((Date(d), Place("", [])));
    OneItemReads("a", "a", text, Date(d));
    OneForgotten("a", Date(d));
    ReadWriteRead(Unlines(["a" + (" = " + text)]), t);
  }
}
