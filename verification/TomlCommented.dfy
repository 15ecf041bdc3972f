/** What src/cpptoml.h writes is one of the texts that users may spell, so comments may be added to it anywhere. */
module TomlCommented {
  import opened Wrappers
  import opened Decimal
  import opened TomlDates
  import opened TomlText
  import opened TomlValues
  import opened TomlKeys
  import opened TomlTree
  import opened TomlListing
  import opened TomlPrinter
  import opened TomlReader
  import opened TomlComments
  import S = TomlSpelling
  import A = TomlSpelledArrays
  import T = TomlSpelledTexts
  import TomlRoundTrip

  // ---------------------------------------------------------------- values

  function CharOf(c: char): S.Char {
    if c == '\\' || c == '\"' then S.Code(c) else if c == '\n' then S.Code('n') else S.Raw(c)
  }

  function CharsOf(s: string): seq<S.Char> {
    if s == "" then [] else [CharOf(s[0])] + CharsOf(s[1..])
  }

  function ZoneOf(d: DateTime): S.Zone {
    if d.hourOffset == 0 && d.minuteOffset == 0 then S.Zulu
    else S.Offset(d.hourOffset > 0, Abs(d.hourOffset), Abs(d.minuteOffset))
  }

  const NO_GAP := S.Gap([], "")

  function SpelledOf(v: Value): S.Spelled {
    match v
    case Str(s) => S.Basic(CharsOf(s))
    case Int(n) => S.Number(if n < 0 then "-" else "", [Dec(if n < 0 then -n else n)])
    case Bool(b) => S.Truth(b)
    case Date(d) => S.Moment(d, if d.microsecond > 0 then Some(Padded(d.microsecond, 6)) else None, ZoneOf(d))
    case Arr(vs) => S.Listed(NO_GAP, ItemsOf(vs))
  }

  function ItemsOf(vs: seq<Value>): S.Items {
    if vs == [] then S.Done
    else if |vs| == 1 then S.Final(SpelledOf(vs[0]), NO_GAP, ']')
    else S.More(SpelledOf(vs[0]), NO_GAP, S.Gap([], " "), ItemsOf(vs[1..]))
  }

  lemma {:induction false} CharsOfText(s: string)
    ensures S.CharsText(CharsOf(s)) == Escape(s) && S.CharsMean(CharsOf(s)) == s && S.AreChars(CharsOf(s))
  {
    hide S.CharText, S.CharMeans, S.IsChar, EscapeChar, CharOf;
    if s != "" {
      var c, rest := CharOf(s[0]), CharsOf(s[1..]);
      CharsOfText(s[1..]);
      CharOfText(s[0]);
      MoreChars(c, rest);
      assert s == [s[0]] + s[1..];
    }
  }

  lemma CharOfText(c: char)
    ensures S.CharText(CharOf(c)) == EscapeChar(c) && S.CharMeans(CharOf(c)) == [c] && S.IsChar(CharOf(c))
  {
  }

  lemma MoreChars(c: S.Char, rest: seq<S.Char>)
    requires S.IsChar(c) && S.AreChars(rest)
    ensures S.AreChars([c] + rest)
    ensures S.CharsText([c] + rest) == S.CharText(c) + S.CharsText(rest)
    ensures S.CharsMean([c] + rest) == S.CharMeans(c) + S.CharsMean(rest)
  {
    hide S.CharText, S.CharMeans, S.IsChar;
    assert ([c] + rest)[1..] == rest;
  }

  lemma ZoneOfText(d: DateTime)
    ensures S.ZoneText(ZoneOf(d)) == OffsetText(d)
  {
    hide Padded;
  }

  /** The spelling of a value that is written is the text that is written. */
  lemma ScalarOfText(v: Value)
    requires !v.Arr?
    ensures S.ScalarText(SpelledOf(v)) == PrintValue(v)
  {
    hide Padded, Dec, Escape, S.CharsText;
    match v
    case Str(s) => CharsOfText(s);
    case Int(n) =>
      var d := Dec(if n < 0 then -n else n);
      assert S.GroupsText([d]) == d + "" + "" == d;
      assert "" + d == d;
    case Bool(b) =>
    case Date(d) => ZoneOfText(d);
  }

  lemma {:induction false} ValueOfText(v: Value, after: Place)
    ensures S.Spell(SpelledOf(v), after) == S.Before(PrintValue(v), after)
    decreases v, 1
  {
    hide S.ScalarText, Padded, Dec, Escape, S.CharsText, S.SpellItems, ItemsText, ItemsOf;
    if v.Arr? {
      ItemsOfText(v.vs, after);
      var p := S.SpellItems(ItemsOf(v.vs), after);
      NoGapPut(p);
      assert "[" + (ItemsText(v.vs) + ("]" + after.text)) == "[" + ItemsText(v.vs) + "]" + after.text;
    } else {
      ScalarOfText(v);
    }
  }

  lemma NoGapPut(p: Place)
    ensures S.Put(NO_GAP, p) == p
  {
    assert "" + p.text == p.text;
  }

  lemma {:induction false} ItemsOfText(vs: seq<Value>, after: Place)
    ensures S.SpellItems(ItemsOf(vs), after) == S.Before(ItemsText(vs) + "]", after)
    decreases vs, 0
  {
    hide S.Spell, S.Put, PrintValue, SpelledOf;
    if vs == [] {
      assert "" + "]" == "]";
    } else if |vs| == 1 {
      var p := S.Before("]", after);
      NoGapPut(p);
      ValueOfText(vs[0], p);
      assert vs[1..] == [];
      assert ItemsText(vs) == PrintValue(vs[0]) + "" + "";
      assert PrintValue(vs[0]) + ("]" + after.text) == ItemsText(vs) + "]" + after.text;
    } else {
      var inner := S.SpellItems(ItemsOf(vs[1..]), after);
      var q := S.Before(",", S.Put(S.Gap([], " "), inner));
      ItemsOfText(vs[1..], after);
      NoGapPut(q);
      BlankPut(inner);
      ValueOfText(vs[0], q);
      assert PrintValue(vs[0]) + ("," + (" " + (ItemsText(vs[1..]) + "]" + after.text)))
          == PrintValue(vs[0]) + ", " + ItemsText(vs[1..]) + "]" + after.text;
    }
  }

  lemma BlankPut(p: Place)
    ensures S.Put(S.Gap([], " "), p) == S.Before(" ", p)
  {
  }

  lemma KindOfSpelled(v: Value)
    ensures S.KindSpelled(SpelledOf(v)) == KindFor(v)
  {
    hide Padded, Dec;
  }

  lemma GapsFit()
    ensures S.IsGap(NO_GAP) && S.IsGap(S.Gap([], " "))
  {
  }

  /** What follows a written value: the end of the line, a comma, a closing bracket, or blanks or a comment. */
  predicate EndsValue(v: Value, rest: string) {
    rest == "" || IsBlank(rest[0]) || rest[0] == '#' || (!v.Bool? && (rest[0] == ',' || rest[0] == ']'))
  }

  lemma ScalarFits(v: Value, rest: string)
    requires InRangeValue(v) && !v.Arr? && EndsValue(v, rest)
    ensures S.IsScalar(SpelledOf(v)) && S.MayFollow(SpelledOf(v), rest)
    ensures Success(S.Means(SpelledOf(v))) == SeenValue(v)
  {
    hide Padded, Dec, Accumulate, IsDate;
    match v
    case Str(s) => CharsOfText(s);
    case Int(n) =>
      NumberFits(n);
      NumberFollowed(n, rest);
    case Bool(_) =>
    case Date(d) => FractionDigits(d.microsecond);
  }

  lemma NumberFollowed(n: int, rest: string)
    requires rest == "" || IsBlank(rest[0]) || rest[0] in {'#', ',', ']'}
    ensures !IsDate(S.ScalarText(SpelledOf(Int(n))) + rest)
  {
    hide Dec, IsDate;
    var d := Dec(if n < 0 then -n else n);
    assert S.GroupsText([d]) == d + "" + "" == d;
    S.NoDateInNumber(if n < 0 then "-" else "", d, rest);
  }

  lemma NumberFits(n: int)
    requires IsInt64(n)
    ensures var groups := [Dec(if n < 0 then -n else n)];
            S.AreGroups(groups) && S.NumberMeans(if n < 0 then "-" else "", groups) == n
  {
    hide Dec, Accumulate;
    var d := Dec(if n < 0 then -n else n);
    AccumulateDec(if n < 0 then -n else n);
    assert [d][1..] == [] && S.Joined([d]) == d + "" == d;
  }

  /** It means what is seen of the value. */
  lemma {:induction false} ValueFits(v: Value, after: Place)
    requires InRangeValue(v) && SeenValue(v).Success? && EndsValue(v, after.text)
    ensures A.Fits(SpelledOf(v), after) && Success(S.Means(SpelledOf(v))) == SeenValue(v)
    decreases v, 1
  {
    hide A.FitItems, S.ItemsMean, ItemsOf, SeenItems, S.IsScalar, S.IsGap, S.MayFollow;
    if v.Arr? {
      GapsFit();
      var kind := if v.vs == [] then KInt else KindFor(v.vs[0]);
      ItemsFirst(v.vs);
      if v.vs != [] {
        ItemsFit(v.vs, kind, after);
      } else {
        NothingFits(after);
      }
    } else {
      ScalarFits(v, after.text);
    }
  }

  lemma NothingFits(after: Place)
    ensures ItemsOf([]) == S.Done && A.FitItems(S.Done, KInt, after) && S.ItemsMean(S.Done) == []
  {
  }

  lemma ItemsFirst(vs: seq<Value>)
    ensures A.KindOfItems(ItemsOf(vs)) == if vs == [] then KInt else KindFor(vs[0])
  {
    hide SpelledOf;
    if vs != [] {
      KindOfSpelled(vs[0]);
    }
  }

  lemma {:induction false} ItemsFit(vs: seq<Value>, kind: Kind, after: Place)
    requires vs != [] && (forall i :: 0 <= i < |vs| ==> InRangeValue(vs[i])) && SeenItems(vs, kind).Success?
    requires kind != KBool
    ensures A.FitItems(ItemsOf(vs), kind, after) && S.ItemsMean(ItemsOf(vs)) == SeenItems(vs, kind).value
    decreases vs, 0
  {
    hide A.Fits, S.Means, SpelledOf, SeenValue, InRangeValue, S.IsGap, S.Put, S.SpellItems;
    GapsFit();
    KindOfSpelled(vs[0]);
    if |vs| > 1 {
      var q := S.Before(",", S.Put(S.Gap([], " "), S.SpellItems(ItemsOf(vs[1..]), after)));
      NoGapPut(q);
      ValueFits(vs[0], q);
      ItemsFit(vs[1..], kind, after);
    } else {
      NoGapPut(S.Before("]", after));
      ValueFits(vs[0], S.Before("]", after));
      assert vs[1..] == [] && SeenItems(vs[1..], kind) == Success([]);
      assert [SeenValue(vs[0]).value] + [] == [SeenValue(vs[0]).value];
    }
  }

  // ---------------------------------------------------------------- lines

  function KeyOf(k: string): T.Key {
    if IsBare(k) then T.Plain(k) else T.Quotes(CharsOf(k))
  }

  function PartsOf(path: seq<string>): seq<T.Part> {
    if path == [] then [] else [T.Part(KeyOf(path[0]), "", |path| > 1, "")] + PartsOf(path[1..])
  }

  function HeaderOf(path: seq<string>, inArray: bool): seq<T.Line> {
    if path == [] then []
    else if inArray then [T.SeriesName(Tabs(|path| - 1), "", PartsOf(path), ']', "")]
    else [T.TableName(Tabs(|path| - 1), "", PartsOf(path), "")]
  }

  function ItemOf(key: string, v: Value, depth: nat): T.Line {
    T.Item(Tabs(depth), KeyOf(key), " ", " ", SpelledOf(v), "")
  }

  function ValuesOf(items: seq<Entry>, depth: nat): seq<T.Line> {
    if items == [] then []
    else
      (if items[0].content.Plain? then [ItemOf(items[0].key, items[0].content.v, depth)] else [])
      + ValuesOf(items[1..], depth)
  }

  function SubsOf(items: seq<Entry>, path: seq<string>): seq<T.Line> {
    if items == [] then [] else ContentOf(items[0].content, path + [items[0].key]) + SubsOf(items[1..], path)
  }

  function ContentOf(c: Content, path: seq<string>): seq<T.Line> {
    match c
    case Plain(_) => []
    case Inner(t) => TableOf(t, path, false)
    case Series(ts) => SeriesOf(ts, path)
  }

  function SeriesOf(ts: seq<Listing>, path: seq<string>): seq<T.Line> {
    if ts == [] then [] else TableOf(ts[0], path, true) + SeriesOf(ts[1..], path)
  }

  /** The lines of a written table as spelled lines. */
  function TableOf(t: Listing, path: seq<string>, inArray: bool): seq<T.Line> {
    HeaderOf(path, inArray) + (ValuesOf(t.items, |path|) + SubsOf(t.items, path))
  }

  function DocumentOf(t: Listing): seq<T.Line> {
    (if StartsEmpty(t) then [T.Idle("")] else []) + TableOf(t, [], false)
  }

  lemma KeyOfText(k: string)
    ensures T.KeySpelled(KeyOf(k)) == KeyText(k) && T.Name(KeyOf(k)) == k
    ensures k != "" ==> T.IsKey(KeyOf(k), {'='}) && T.IsKey(KeyOf(k), {'.', ']'})
  {
    hide Escape, S.CharsText, S.CharsMean;
    CharsOfText(k);
    if IsBare(k) {
      assert forall i :: 0 <= i < |k| ==> IsBareChar(k[i]);
    } else {
      assert "\"" + (Escape(k) + "\"") == "\"" + Escape(k) + "\"";
    }
  }

  lemma {:induction false} PartsOfText(path: seq<string>)
    ensures T.PartsText(PartsOf(path)) == PathText(path) && T.Names(PartsOf(path)) == path
    ensures |PartsOf(path)| == |path|
    ensures path != [] && NonEmpty(path) ==> T.AreParts(PartsOf(path))
  {
    hide KeyText, T.KeySpelled, T.Name, T.IsPart, KeyOf;
    if path != [] {
      var part, more := T.Part(KeyOf(path[0]), "", |path| > 1, ""), PartsOf(path[1..]);
      PartsOfText(path[1..]);
      PartOfText(path[0], |path| > 1);
      assert PartsOf(path)[1..] == more && PartsOf(path)[0] == part;
      assert [path[0]] + path[1..] == path;
    }
  }

  lemma PartOfText(k: string, dot: bool)
    ensures var part := T.Part(KeyOf(k), "", dot, "");
            && T.PartText(part) == KeyText(k) + (if dot then "." else "")
            && T.Name(part.key) == k && (k != "" ==> T.IsPart(part))
  {
    hide KeyText, T.KeySpelled, KeyOf;
    KeyOfText(k);
    assert "." + "" == "." && "" + "." == "." && "" + "" == "";
  }

  // ---------------------------------------------------------------- tails

  function Tailed(line: T.Line, tail: string): T.Line {
    match line
    case Idle(text) => T.Idle(text + tail)
    case TableName(indent, lead, parts, _) => T.TableName(indent, lead, parts, tail)
    case SeriesName(indent, lead, parts, second, _) => T.SeriesName(indent, lead, parts, second, tail)
    case Item(indent, key, before, behind, value, _) => T.Item(indent, key, before, behind, value, tail)
  }

  function AllTailed(doc: seq<T.Line>, tails: seq<string>): (r: seq<T.Line>)
    requires |tails| == |doc|
    ensures |r| == |doc|
  {
    if doc == [] then [] else [Tailed(doc[0], tails[0])] + AllTailed(doc[1..], tails[1..])
  }

  function Appended(lines: seq<string>, tails: seq<string>): (r: seq<string>)
    requires |tails| == |lines|
    ensures |r| == |lines| && forall i :: 0 <= i < |r| ==> r[i] == lines[i] + tails[i]
  {
    seq(|lines|, i requires 0 <= i < |lines| => lines[i] + tails[i])
  }

  /** A written line and its text. */
  ghost predicate Writes(line: T.Line, text: string) {
    match line
    case Idle(t) => t == text
    case TableName(indent, lead, parts, tail) =>
      lead == tail == "" && text == indent + ("[" + (T.PartsText(parts) + "]"))
    case SeriesName(indent, lead, parts, second, tail) =>
      lead == tail == "" && second == ']' && text == indent + ("[[" + (T.PartsText(parts) + "]]"))
    case Item(indent, key, before, behind, value, tail) =>
      && tail == ""
      && exists v :: value == SpelledOf(v)
           && text == indent + (T.KeySpelled(key) + (before + ("=" + (behind + PrintValue(v)))))
  }

  lemma WrittenTailed(line: T.Line, text: string, tail: string, more: seq<T.Line>)
    requires Writes(line, text)
    ensures T.TextLines([Tailed(line, tail)] + more) == [text + tail] + T.TextLines(more)
  {
    hide T.PartsText, T.KeySpelled, S.Spell, PrintValue, SpelledOf;
    assert ([Tailed(line, tail)] + more)[1..] == more;
    match line
    case Idle(_) =>
    case TableName(indent, _, parts, _) =>
      NameJoined(indent, "[", T.PartsText(parts), "]", tail);
      assert "" + (T.PartsText(parts) + ("]" + tail)) == T.PartsText(parts) + ("]" + tail);
    case SeriesName(indent, _, parts, _, _) =>
      NameJoined(indent, "[[", T.PartsText(parts), "]]", tail);
      assert "]" + ("]" + tail) == "]]" + tail;
      assert "" + (T.PartsText(parts) + ("]]" + tail)) == T.PartsText(parts) + ("]]" + tail);
    case Item(indent, key, before, behind, value, _) =>
      var v :| value == SpelledOf(v)
               && text == indent + (T.KeySpelled(key) + (before + ("=" + (behind + PrintValue(v)))));
      ValueOfText(v, Place(tail, T.TextLines(more)));
      ItemJoined(indent, T.KeySpelled(key), before, behind, PrintValue(v), tail);
  }

  lemma NameJoined(a: string, b: string, c: string, d: string, tail: string)
    ensures a + (b + (c + (d + tail))) == a + (b + (c + d)) + tail
  {
  }

  lemma ItemJoined(a: string, b: string, c: string, d: string, e: string, tail: string)
    ensures a + (b + (c + ("=" + (d + (e + tail))))) == a + (b + (c + ("=" + (d + e)))) + tail
  {
  }

  /** Written lines one by one. */
  ghost predicate AllWrite(doc: seq<T.Line>, lines: seq<string>) {
    |doc| == |lines| && forall i :: 0 <= i < |doc| ==> Writes(doc[i], lines[i])
  }

  lemma {:induction false} AllWrittenTailed(doc: seq<T.Line>, lines: seq<string>, tails: seq<string>)
    requires AllWrite(doc, lines) && |tails| == |doc|
    ensures T.TextLines(AllTailed(doc, tails)) == Appended(lines, tails)
  {
    hide Writes, Tailed, T.TextLines, Appended;
    if doc == [] {
      NoLines();
    } else {
      AllWrittenTailed(doc[1..], lines[1..], tails[1..]);
      assert Writes(doc[0], lines[0]);
      WrittenTailed(doc[0], lines[0], tails[0], AllTailed(doc[1..], tails[1..]));
      AppendedFirst(lines, tails);
    }
  }

  lemma NoLines()
    ensures T.TextLines([]) == [] && Appended([], []) == []
  {
  }

  lemma AppendedFirst(lines: seq<string>, tails: seq<string>)
    requires |tails| == |lines| > 0
    ensures Appended(lines, tails) == [lines[0] + tails[0]] + Appended(lines[1..], tails[1..])
  {
  }

  lemma AllWriteAppend(a: seq<T.Line>, l: seq<string>, b: seq<T.Line>, m: seq<string>)
    requires AllWrite(a, l) && AllWrite(b, m)
    ensures AllWrite(a + b, l + m)
  {
    hide Writes;
  }

  lemma HeaderWrites(path: seq<string>, inArray: bool)
    ensures AllWrite(HeaderOf(path, inArray), HeaderLines(path, inArray))
  {
    hide PathText, PartsOf, T.PartsText, Tabs;
    if path != [] {
      PartsOfText(path);
      HeaderJoined(Tabs(|path| - 1), PathText(path));
    }
  }

  lemma HeaderJoined(a: string, b: string)
    ensures a + ("[" + b + "]") == a + ("[" + (b + "]"))
    ensures a + ("[[" + b + "]]") == a + ("[[" + (b + "]]"))
  {
  }

  lemma ItemWrites(key: string, v: Value, depth: nat)
    ensures Writes(ItemOf(key, v, depth), ItemLine(key, v, depth))
  {
    hide KeyText, T.KeySpelled, KeyOf, PrintValue, SpelledOf, Tabs;
    KeyOfText(key);
    var a, b, c := Tabs(depth), KeyText(key), PrintValue(v);
    assert a + b + " = " + c == a + (b + (" " + ("=" + (" " + c))));
  }

  lemma {:induction false} ValuesWrite(items: seq<Entry>, depth: nat)
    ensures AllWrite(ValuesOf(items, depth), ValueLines(items, depth))
  {
    hide Writes, ItemOf, ItemLine;
    if items != [] {
      ValuesWrite(items[1..], depth);
      if items[0].content.Plain? {
        ItemWrites(items[0].key, items[0].content.v, depth);
      }
    }
  }

  lemma {:induction false} TableWrites(t: Listing, path: seq<string>, inArray: bool)
    ensures AllWrite(TableOf(t, path, inArray), TableLines(t, path, inArray))
    decreases t, 1
  {
    hide AllWrite, HeaderOf, HeaderLines, ValuesOf, ValueLines, SubsOf, SubLines;
    HeaderWrites(path, inArray);
    ValuesWrite(t.items, |path|);
    SubsWrite(t.items, path);
    AllWriteAppend(ValuesOf(t.items, |path|), ValueLines(t.items, |path|),
                   SubsOf(t.items, path), SubLines(t.items, path));
    AllWriteAppend(HeaderOf(path, inArray), HeaderLines(path, inArray),
                   ValuesOf(t.items, |path|) + SubsOf(t.items, path),
                   ValueLines(t.items, |path|) + SubLines(t.items, path));
  }

  lemma {:induction false} SubsWrite(items: seq<Entry>, path: seq<string>)
    ensures AllWrite(SubsOf(items, path), SubLines(items, path))
    decreases items, 0
  {
    hide Writes, TableOf, TableLines, SeriesOf, SeriesLines;
    if items != [] {
      SubsWrite(items[1..], path);
      match items[0].content
      case Plain(_) =>
      case Inner(t) => TableWrites(t, path + [items[0].key], false);
      case Series(ts) => SeriesWrites(ts, path + [items[0].key]);
    }
  }

  lemma {:induction false} SeriesWrites(ts: seq<Listing>, path: seq<string>)
    ensures AllWrite(SeriesOf(ts, path), SeriesLines(ts, path))
    decreases ts, 0
  {
    hide Writes, TableOf, TableLines;
    if ts != [] {
      TableWrites(ts[0], path, true);
      SeriesWrites(ts[1..], path);
    }
  }

  lemma DocumentWrites(t: Listing)
    ensures AllWrite(DocumentOf(t), DocumentLines(t))
  {
    hide TableOf, TableLines;
    TableWrites(t, [], false);
    AllWriteAppend(if StartsEmpty(t) then [T.Idle("")] else [], if StartsEmpty(t) then [""] else [],
                   TableOf(t, [], false), TableLines(t, [], false));
  }

  // ---------------------------------------------------------------- well formed

  /** Well formed with any comment behind it, whatever lines follow. */
  ghost predicate Robust(line: T.Line) {
    forall tail, more :: IsIdle(tail) ==> T.IsLine(Tailed(line, tail), more)
  }

  ghost predicate AllLines(doc: seq<T.Line>) {
    forall i :: 0 <= i < |doc| ==> Robust(doc[i])
  }

  lemma AllLinesAppend(a: seq<T.Line>, b: seq<T.Line>)
    requires AllLines(a) && AllLines(b)
    ensures AllLines(a + b)
  {
    hide Robust;
  }

  lemma {:induction false} TabsAreBlanks(n: nat)
    ensures S.AreBlanks(Tabs(n))
  {
    if n > 0 {
      TabsAreBlanks(n - 1);
    }
  }

  lemma HeaderIsLine(path: seq<string>, inArray: bool)
    requires NonEmpty(path)
    ensures AllLines(HeaderOf(path, inArray))
  {
    hide PartsOf, Tabs, T.AreParts, S.AreBlanks;
    if path != [] {
      PartsOfText(path);
      TabsAreBlanks(|path| - 1);
      FewBlanks();
    }
  }

  lemma ItemIsLine(key: string, v: Value, depth: nat)
    requires key != "" && InRangeValue(v) && SeenValue(v).Success?
    ensures Robust(ItemOf(key, v, depth))
  {
    hide KeyOf, SpelledOf, Tabs, A.Fits, T.IsKey, InRangeValue, SeenValue, IsIdle, S.AreBlanks;
    TabsAreBlanks(depth);
    FewBlanks();
    KeyOfText(key);
    forall tail, more | IsIdle(tail)
      ensures T.IsLine(Tailed(ItemOf(key, v, depth), tail), more)
    {
      T.IdleIs(tail);
      ValueFits(v, Place(tail, more));
    }
  }

  lemma FewBlanks()
    ensures S.AreBlanks("") && S.AreBlanks(" ")
  {
  }

  lemma {:induction false} ValuesAreLines(items: seq<Entry>, depth: nat)
    requires EveryItems(items, WRITABLE) && SeenEntries(items).Success?
    ensures AllLines(ValuesOf(items, depth))
  {
    hide Robust, ItemOf, InRangeValue, SeenValue, Keys, Kept;
    if items != [] {
      ValuesAreLines(items[1..], depth);
      if items[0].content.Plain? {
        ItemIsLine(items[0].key, items[0].content.v, depth);
      }
    }
  }

  lemma NonEmptyGrows(path: seq<string>, k: string)
    requires NonEmpty(path) && k != ""
    ensures NonEmpty(path + [k])
  {
  }

  lemma {:induction false} TableIsLines(t: Listing, path: seq<string>, inArray: bool)
    requires Writable(t) && Seen(t).Success? && NonEmpty(path)
    ensures AllLines(TableOf(t, path, inArray))
    decreases t, 1
  {
    hide AllLines, HeaderOf, ValuesOf, SubsOf, EveryItems, SeenEntries, NonEmpty;
    HeaderIsLine(path, inArray);
    ValuesAreLines(t.items, |path|);
    SubsAreLines(t.items, path);
    AllLinesAppend(ValuesOf(t.items, |path|), SubsOf(t.items, path));
    AllLinesAppend(HeaderOf(path, inArray), ValuesOf(t.items, |path|) + SubsOf(t.items, path));
  }

  lemma {:induction false} SubsAreLines(items: seq<Entry>, path: seq<string>)
    requires EveryItems(items, WRITABLE) && SeenEntries(items).Success? && NonEmpty(path)
    ensures AllLines(SubsOf(items, path))
    decreases items, 0
  {
    hide Robust, TableOf, SeriesOf, InRangeValue, SeenValue, Keys, Kept, NonEmpty, Seen, SeenSeries, Every, EverySeries;
    if items != [] {
      SubsAreLines(items[1..], path);
      NonEmptyGrows(path, items[0].key);
      match items[0].content
      case Plain(_) =>
      case Inner(t) => InnerIsLines(t, path + [items[0].key]);
      case Series(ts) => SeriesIsLines(ts, path + [items[0].key]);
    }
  }

  lemma {:induction false} InnerIsLines(t: Listing, path: seq<string>)
    requires Every(t, WRITABLE) && Seen(t).Success? && NonEmpty(path)
    ensures AllLines(TableOf(t, path, false))
    decreases t, 2
  {
    TableIsLines(t, path, false);
  }

  lemma {:induction false} SeriesIsLines(ts: seq<Listing>, path: seq<string>)
    requires EverySeries(ts, WRITABLE) && SeenSeries(ts).Success? && NonEmpty(path)
    ensures AllLines(SeriesOf(ts, path))
    decreases ts, 0
  {
    hide Robust, TableOf, Every, Seen, NonEmpty;
    if ts != [] {
      assert Every(ts[0], WRITABLE) == Writable(ts[0]);
      TableIsLines(ts[0], path, true);
      SeriesIsLines(ts[1..], path);
    }
  }

  lemma DocumentIsLines(t: Listing)
    requires Writable(t) && Seen(t).Success?
    ensures AllLines(DocumentOf(t))
  {
    hide TableOf, Seen, Writable;
    TableIsLines(t, [], false);
    IdleIsLine();
    AllLinesAppend(if StartsEmpty(t) then [T.Idle("")] else [], TableOf(t, [], false));
  }

  lemma IdleIsLine()
    ensures Robust(T.Idle(""))
  {
    forall tail | IsIdle(tail)
      ensures Tailed(T.Idle(""), tail) == T.Idle(tail)
    {
      assert "" + tail == tail;
    }
  }

  // ---------------------------------------------------------------- comments behind the lines

  lemma TailedDoes(line: T.Line, tail: string, st: Reading)
    requires Valid(st)
    ensures T.Does(Tailed(line, tail), st) == T.Does(line, st)
  {
    hide T.Names, T.Name, S.Means, Insert, Current;
  }

  /** Comments behind the lines make no difference to what they do. */
  lemma {:induction false} AllTailedDo(doc: seq<T.Line>, tails: seq<string>, st: Reading)
    requires AllLines(doc) && |tails| == |doc| && (forall i :: 0 <= i < |tails| ==> IsIdle(tails[i])) && Valid(st)
    ensures T.AreLines(AllTailed(doc, tails))
    ensures T.DoesAll(AllTailed(doc, tails), st) == T.DoesAll(doc, st)
  {
    hide T.IsLine, T.Does, Tailed, IsIdle, T.TextLines;
    if doc != [] {
      assert Robust(doc[0]);
      TailedDoes(doc[0], tails[0], st);
      var rest := AllTailed(doc[1..], tails[1..]);
      assert AllTailed(doc, tails)[1..] == rest && AllTailed(doc, tails)[0] == Tailed(doc[0], tails[0]);
      assert T.IsLine(Tailed(doc[0], tails[0]), T.TextLines(rest));
      AllTailedDo(doc[1..], tails[1..], if T.Does(doc[0], st).Success? then T.Does(doc[0], st).value else st);
    }
  }

  /** Blanks and comments may be added behind every written line, and idle lines between, before and behind them: the
      text reads as what was written. */
  lemma Commented(t: Listing, tails: seq<string>, text: string)
    requires Writable(t) && Seen(t).Success?
    requires |tails| == |DocumentLines(t)| && forall i :: 0 <= i < |tails| ==> IsIdle(tails[i])
    requires Loosens(Lines(text), Appended(DocumentLines(t), tails))
    ensures Parse(text) == Parse(Write(t)) == Seen(t)
  {
    hide Exec, Lines, Loosens, DocumentOf, DocumentLines, Appended, Seen, Write, IsIdle, Writes, T.IsLine;
    var st := Reading(EMPTY, []);
    var doc, lines := DocumentOf(t), DocumentLines(t);
    DocumentWrites(t);
    DocumentIsLines(t);
    AllWrittenTailed(doc, lines, tails);
    AllTailedDo(doc, tails, st);
    T.LinesDo(AllTailed(doc, tails), st);
    IdleLines(Lines(text), Appended(lines, tails), st);
    var none := Copies("", |doc|);
    NoneIdle();
    AllWrittenTailed(doc, lines, none);
    AllTailedDo(doc, none, st);
    T.LinesDo(AllTailed(doc, none), st);
    NothingAppended(lines, none);
    WritableIs(t);
    TomlRoundTrip.WrittenLines(t);
    TomlRoundTrip.ParseWrite(t);
  }

  function Copies(x: string, n: nat): (s: seq<string>)
    ensures |s| == n && forall i :: 0 <= i < n ==> s[i] == x
  {
    seq(n, i => x)
  }

  lemma NoneIdle()
    ensures IsIdle("")
  {
  }

  lemma NothingAppended(lines: seq<string>, none: seq<string>)
    requires |none| == |lines| && forall i :: 0 <= i < |none| ==> none[i] == ""
    ensures Appended(lines, none) == lines
  {
    forall i | 0 <= i < |lines| ensures lines[i] + none[i] == lines[i] {
    }
  }
}
