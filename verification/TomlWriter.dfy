/** The writer of src/cpptoml.h: a visitor with a path stack and an end-of-line flag, proved to print the lines of
    TomlPrinter. */
module TomlWriter {
  import opened Decimal
  import opened TomlDates
  import opened TomlText
  import opened TomlValues
  import opened TomlKeys
  import opened TomlListing
  import opened TomlPrinter

  // ---------------------------------------------------------------- what the loops add

  lemma {:induction false} EscapeGrows(s: string, i: nat)
    requires i < |s|
    ensures Escape(s[..i + 1]) == Escape(s[..i]) + EscapeChar(s[i])
  {
    hide EscapeChar;
    if i == 0 {
      assert s[..1][1..] == "" && Escape("") == "";
      assert s[..0] == "";
    } else {
      assert s[..i + 1][1..] == s[1..][..i] && s[..i][1..] == s[1..][..i - 1];
      EscapeGrows(s[1..], i - 1);
    }
  }

  lemma {:induction false} TabsGrow(n: nat)
    ensures Tabs(n + 1) == Tabs(n) + "\t"
  {
    if n > 0 {
      TabsGrow(n - 1);
    }
  }

  lemma GluedBehind(x: string, gap: string, m: string, g: string, y: string)
    ensures x + gap + (m + g + y) == (x + gap + m) + g + y
  {
  }

  lemma {:induction false} PathGrows(path: seq<string>, i: nat)
    requires i < |path|
    ensures PathText(path[..i + 1]) == PathText(path[..i]) + (if i > 0 then "." else "") + KeyText(path[i])
  {
    hide KeyText;
    var rest := path[1..];
    if i == 0 {
      assert path[..1][1..] == [] && PathText([]) == "";
    } else if i == 1 {
      assert path[..2][1..] == [path[1]] && path[..2][1..][1..] == [] && path[..1][1..] == [];
      assert PathText([]) == "" && PathText([path[1]]) == KeyText(path[1]);
    } else {
      assert path[..i + 1][1..] == rest[..i] && path[..i][1..] == rest[..i - 1];
      PathGrows(rest, i - 1);
      GluedBehind(KeyText(path[0]), ".", PathText(rest[..i - 1]), ".", KeyText(path[i]));
    }
  }

  lemma {:induction false} ItemsGrow(vs: seq<Value>, i: nat)
    requires i < |vs|
    ensures ItemsText(vs[..i + 1]) == ItemsText(vs[..i]) + (if i > 0 then ", " else "") + PrintValue(vs[i])
  {
    hide PrintValue;
    var rest := vs[1..];
    if i == 0 {
      assert vs[..1][1..] == [] && ItemsText([]) == "";
    } else if i == 1 {
      assert vs[..2][1..] == [vs[1]] && vs[..2][1..][1..] == [] && vs[..1][1..] == [];
      assert ItemsText([]) == "" && ItemsText([vs[1]]) == PrintValue(vs[1]);
    } else {
      assert vs[..i + 1][1..] == rest[..i] && vs[..i][1..] == rest[..i - 1];
      ItemsGrow(rest, i - 1);
      GluedBehind(PrintValue(vs[0]), ", ", ItemsText(rest[..i - 1]), ", ", PrintValue(vs[i]));
    }
  }

  lemma {:induction false} UnlinesAppend(a: seq<string>, b: seq<string>)
    ensures Unlines(a + b) == Unlines(a) + Unlines(b)
  {
    if a == [] {
      assert a + b == b;
    } else {
      assert (a + b)[1..] == a[1..] + b;
      UnlinesAppend(a[1..], b);
    }
  }

  lemma {:induction false} ValueLinesAppend(a: seq<Entry>, b: seq<Entry>, depth: nat)
    ensures ValueLines(a + b, depth) == ValueLines(a, depth) + ValueLines(b, depth)
  {
    hide ItemLine;
    if a == [] {
      assert a + b == b;
    } else {
      assert (a + b)[1..] == a[1..] + b;
      ValueLinesAppend(a[1..], b, depth);
    }
  }

  lemma {:induction false} SubLinesAppend(a: seq<Entry>, b: seq<Entry>, path: seq<string>)
    ensures SubLines(a + b, path) == SubLines(a, path) + SubLines(b, path)
  {
    hide ContentLines;
    if a == [] {
      assert a + b == b;
    } else {
      assert (a + b)[1..] == a[1..] + b;
      SubLinesAppend(a[1..], b, path);
    }
  }

  lemma {:induction false} SeriesLinesAppend(a: seq<Listing>, b: seq<Listing>, path: seq<string>)
    ensures SeriesLines(a + b, path) == SeriesLines(a, path) + SeriesLines(b, path)
  {
    hide TableLines;
    if a == [] {
      assert a + b == b;
    } else {
      assert (a + b)[1..] == a[1..] + b;
      SeriesLinesAppend(a[1..], b, path);
    }
  }

  /** Sorting the entries into values and tables does not change what is printed. */
  lemma {:induction false} SortedLines(items: seq<Entry>, path: seq<string>)
    ensures ValueLines(Plains(items), |path|) == ValueLines(items, |path|)
    ensures SubLines(Subs(items), path) == SubLines(items, path)
  {
    hide ItemLine, TableLines, SeriesLines;
    if items != [] {
      SortedLines(items[1..], path);
      var e := items[0];
      ValueLinesAppend(if e.content.Plain? then [e] else [], Plains(items[1..]), |path|);
      SubLinesAppend(if e.content.Plain? then [] else [e], Subs(items[1..]), path);
      assert [e][1..] == [];
    }
  }

  /** `at` says where the tables of `items` stand. */
  ghost predicate Picks(items: seq<Entry>, at: seq<nat>) {
    && |at| == |Subs(items)|
    && forall j :: 0 <= j < |at| ==> at[j] < |items| && Subs(items)[j] == items[at[j]] && !Subs(items)[j].content.Plain?
  }

  lemma PicksLater(items: seq<Entry>, later: seq<nat>) returns (at: seq<nat>)
    requires items != [] && items[0].content.Plain? && Picks(items[1..], later)
    ensures Picks(items, at)
  {
    at := seq(|later|, j requires 0 <= j < |later| => later[j] + 1);
    assert Subs(items) == Subs(items[1..]);
  }

  lemma PicksFirst(items: seq<Entry>, later: seq<nat>) returns (at: seq<nat>)
    requires items != [] && !items[0].content.Plain? && Picks(items[1..], later)
    ensures Picks(items, at)
  {
    at := [0] + seq(|later|, j requires 0 <= j < |later| => later[j] + 1);
    assert Subs(items) == [items[0]] + Subs(items[1..]);
  }

  lemma {:induction false} SubsAt(items: seq<Entry>) returns (at: seq<nat>)
    ensures Picks(items, at)
  {
    if items == [] {
      at := [];
    } else {
      hide Picks;
      var later := SubsAt(items[1..]);
      if items[0].content.Plain? {
        at := PicksLater(items, later);
      } else {
        at := PicksFirst(items, later);
      }
    }
  }

  lemma HeaderGlued(out: string, tabs: string, text: string, inArray: bool)
    ensures out + tabs + "[" + (if inArray then "[" else "") + text + (if inArray then "]" else "") + "]" + "\n"
         == out + Unlines([tabs + (if inArray then "[[" + text + "]]" else "[" + text + "]")])
  {
    hide Unlines;
    var line := tabs + (if inArray then "[[" + text + "]]" else "[" + text + "]");
    assert tabs + "[" + (if inArray then "[" else "") + text + (if inArray then "]" else "") + "]" == line;
    UnlinesOne(line);
    assert out + tabs + "[" + (if inArray then "[" else "") + text + (if inArray then "]" else "") + "]" == out + line;
    assert out + line + "\n" == out + (line + "\n");
  }

  lemma Same(out: string, before: string, more: string)
    ensures more == "" && out == before ==> out == before + more
  {
  }

  lemma UnlinesOne(line: string)
    ensures Unlines([line]) == line + "\n"
  {
    assert [line][1..] == [] && Unlines([]) == "";
  }

  lemma ItemGlued(out: string, tabs: string, key: string, value: string)
    ensures out + tabs + key + " = " + value == out + (tabs + key + " = " + value)
  {
  }

  lemma ValuesGrow(values: seq<Entry>, i: nat, depth: nat)
    requires i < |values| && values[i].content.Plain?
    ensures i == 0 ==> Unlines(ValueLines(values[..i], depth)) == ""
    ensures Unlines(ValueLines(values[..i + 1], depth))
         == Unlines(ValueLines(values[..i], depth)) + ItemLine(values[i].key, values[i].content.v, depth) + "\n"
  {
    hide ItemLine;
    var line := ItemLine(values[i].key, values[i].content.v, depth);
    assert values[..i + 1] == values[..i] + [values[i]];
    ValueLinesAppend(values[..i], [values[i]], depth);
    OneValueLine(values[i], depth);
    UnlinesAppend(ValueLines(values[..i], depth), [line]);
    UnlinesOne(line);
    assert Unlines(ValueLines(values[..i], depth)) + (line + "\n")
        == Unlines(ValueLines(values[..i], depth)) + line + "\n";
  }

  lemma OneValueLine(e: Entry, depth: nat)
    requires e.content.Plain?
    ensures ValueLines([e], depth) == [ItemLine(e.key, e.content.v, depth)]
  {
    hide ItemLine;
    assert [e][1..] == [];
  }

  // ---------------------------------------------------------------- where an end of line is not suppressed

  /** An empty array of tables ends an open line, or the line that was never begun. */
  function EmptySeriesGap(c: Content, naked: bool): string {
    if c == Series([]) && !naked then "\n" else ""
  }

  function TablesGap(tables: seq<Entry>, afterValues: bool, naked: bool): string
    requires tables != []
  {
    if afterValues then "\n" else EmptySeriesGap(tables[0].content, naked)
  }

  /** Only a root that begins without a line of its own gets an empty line. */
  function Lead(t: Listing, path: seq<string>, naked: bool): string {
    if !naked && path == [] && StartsEmpty(t) then "\n" else ""
  }

  lemma SeriesGrow(ts: seq<Listing>, j: nat, path: seq<string>)
    requires j < |ts|
    ensures j == 0 ==> Unlines(SeriesLines(ts[..j], path)) == ""
    ensures Unlines(SeriesLines(ts[..j + 1], path))
         == Unlines(SeriesLines(ts[..j], path)) + Unlines(TableLines(ts[j], path, true))
  {
    hide TableLines;
    assert ts[..j + 1] == ts[..j] + [ts[j]];
    SeriesLinesAppend(ts[..j], [ts[j]], path);
    assert [ts[j]][1..] == [] && SeriesLines([ts[j]], path) == TableLines(ts[j], path, true);
    UnlinesAppend(SeriesLines(ts[..j], path), TableLines(ts[j], path, true));
  }

  lemma SubsGrow(tables: seq<Entry>, i: nat, path: seq<string>)
    requires i < |tables|
    ensures var lines := Unlines(ContentLines(tables[i].content, path + [tables[i].key]));
      && (i == 0 ==> Unlines(SubLines(tables[..i], path)) == "")
      && Unlines(SubLines(tables[..i + 1], path)) == Unlines(SubLines(tables[..i], path)) + lines
  {
    hide ContentLines;
    var e := tables[i];
    assert tables[..i + 1] == tables[..i] + [e];
    SubLinesAppend(tables[..i], [e], path);
    assert [e][1..] == [] && SubLines([e], path) == ContentLines(e.content, path + [e.key]);
    UnlinesAppend(SubLines(tables[..i], path), ContentLines(e.content, path + [e.key]));
  }

  lemma {:induction false} ValuesArePlain(items: seq<Entry>)
    ensures forall j :: 0 <= j < |Plains(items)| ==> Plains(items)[j].content.Plain?
  {
    if items != [] {
      ValuesArePlain(items[1..]);
    }
  }

  /** The three parts of a table. */
  lemma TableParts(t: Listing, path: seq<string>, inArray: bool)
    ensures Unlines(TableLines(t, path, inArray))
         == Unlines(HeaderLines(path, inArray)) + Unlines(ValueLines(Plains(t.items), |path|))
            + Unlines(SubLines(Subs(t.items), path))
    ensures path == [] ==> Unlines(HeaderLines(path, inArray)) == ""
    ensures Plains(t.items) == [] ==> Unlines(ValueLines(Plains(t.items), |path|)) == ""
    ensures Subs(t.items) == [] ==> Unlines(SubLines(Subs(t.items), path)) == ""
  {
    hide Plains, Subs, HeaderLines, ValueLines, SubLines, Unlines;
    SortedLines(t.items, path);
    ThreeParts(HeaderLines(path, inArray), ValueLines(t.items, |path|), SubLines(t.items, path));
    NothingPrinted(path, inArray);
  }

  lemma ThreeParts(h: seq<string>, v: seq<string>, ss: seq<string>)
    ensures Unlines(h + (v + ss)) == Unlines(h) + Unlines(v) + Unlines(ss)
  {
    hide Unlines;
    UnlinesAppend(h, v + ss);
    UnlinesAppend(v, ss);
    assert Unlines(h) + (Unlines(v) + Unlines(ss)) == Unlines(h) + Unlines(v) + Unlines(ss);
  }

  lemma NothingPrinted(path: seq<string>, inArray: bool)
    ensures path == [] ==> Unlines(HeaderLines(path, inArray)) == ""
    ensures Unlines(ValueLines([], |path|)) == "" && Unlines(SubLines([], path)) == ""
  {
    hide HeaderText, Tabs;
  }

  /** The three parts put together, with the ends of line between them. */
  lemma TableGlued(t: Listing, path: seq<string>, inArray: bool, out: string, naked: bool)
    ensures var values, tables := Plains(t.items), Subs(t.items);
      var header := Unlines(HeaderLines(path, inArray));
      var result := out + Lead(t, path, naked) + Unlines(TableLines(t, path, inArray));
      var vs, ss := Unlines(ValueLines(values, |path|)), Unlines(SubLines(tables, path));
      var flag := path != [] || naked;
      && (values != [] && tables == [] ==> out + header + vs == result)
      && (values != [] && tables != [] ==> out + header + vs + ss == result)
      && (values == [] && tables == [] ==> out + header + (if flag then "" else "\n") == result)
      && (values == [] && tables != [] ==> out + header + EmptySeriesGap(tables[0].content, flag) + ss == result)
  {
    hide Plains, Subs, HeaderLines, TableLines, ValueLines, SubLines, Unlines;
    TableParts(t, path, inArray);
    var values, tables := Plains(t.items), Subs(t.items);
    var h, v := Unlines(HeaderLines(path, inArray)), Unlines(ValueLines(values, |path|));
    var ss := Unlines(SubLines(tables, path));
    var lead := Lead(t, path, naked);
    assert lead == "" || h == "";
    Parts(out, lead, h, v, ss);
  }

  lemma Parts(out: string, lead: string, h: string, v: string, ss: string)
    requires lead == "" || h == ""
    ensures out + lead + (h + v + ss) == out + h + lead + v + ss
    ensures v == "" ==> out + h + lead + v + ss == out + h + lead + ss
    ensures ss == "" ==> out + h + lead + v + ss == out + h + lead + v
    ensures lead == "" ==> out + h + lead + v + ss == out + h + v + ss
  {
  }

  lemma NoSeries(path: seq<string>)
    ensures Unlines(SeriesLines([], path)) == ""
  {
  }

  lemma NoLines()
    ensures Unlines([]) == ""
  {
  }

  lemma EmptyPath()
    ensures PathText([]) == ""
  {
  }

  lemma NoItems()
    ensures ItemsText([]) == ""
  {
  }

  /** The next element behind those of the same kind. */
  lemma Glued(out: string, before: string, gap: string, next: string)
    ensures out + before + gap + next == out + (before + gap + next)
  {
  }

  // ---------------------------------------------------------------- the visitor

  method EscapeString(str: string) returns (res: string)
    ensures res == Escape(str)
  {
    res := "";
    for i := 0 to |str|
      invariant res == Escape(str[..i])
    {
      EscapeGrows(str, i);
      if str[i] == '\\' {
        res := res + "\\\\";
      } else if str[i] == '\"' {
        res := res + "\\\"";
      } else if str[i] == '\n' {
        res := res + "\\n";
      } else {
        res := res + [str[i]];
      }
    }
    assert str[..|str|] == str;
  }

  lemma NextEntry(items: seq<Entry>, i: nat)
    requires i < |items|
    ensures Plains(items[i..]) == (if items[i].content.Plain? then [items[i]] else []) + Plains(items[i + 1..])
    ensures Subs(items[i..]) == (if items[i].content.Plain? then [] else [items[i]]) + Subs(items[i + 1..])
  {
    assert items[i..][0] == items[i] && items[i..][1..] == items[i + 1..];
  }

  lemma NoEntry(items: seq<Entry>)
    ensures Plains(items[|items|..]) == [] && Subs(items[|items|..]) == [] && items[0..] == items
  {
  }

  /** The two lists that the visit of a table makes first. */
  method Sort(items: seq<Entry>) returns (values: seq<Entry>, tables: seq<Entry>)
    ensures values == Plains(items) && tables == Subs(items)
  {
    hide Plains, Subs;
    NoEntry(items);
    values, tables := [], [];
    for i := 0 to |items|
      invariant values + Plains(items[i..]) == Plains(items)
      invariant tables + Subs(items[i..]) == Subs(items)
    {
      NextEntry(items, i);
      if items[i].content.Plain? {
        values := values + [items[i]];
      } else {
        tables := tables + [items[i]];
      }
    }
  }

  class Writer {
    var stream: string
    var path: seq<string>
    var naked: bool

    constructor ()
      ensures stream == "" && path == [] && !naked
    {
      stream, path, naked := "", [], false;
    }

    method Put(s: string)
      modifies this`stream, this`naked
      ensures stream == old(stream) + s && !naked
    {
      stream := stream + s;
      naked := false;
    }

    method Endline()
      modifies this`stream, this`naked
      ensures stream == old(stream) + (if old(naked) then "" else "\n") && naked
    {
      if !naked {
        stream := stream + "\n";
        naked := true;
      }
    }

    method Indent()
      requires path != []
      modifies this`stream, this`naked
      ensures stream == old(stream) + Tabs(|path| - 1)
    {
      for i := 1 to |path|
        modifies this`stream, this`naked
        invariant stream == old(stream) + Tabs(i - 1)
      {
        TabsGrow(i - 1);
        Put("\t");
      }
    }

    method WriteKey(k: string)
      modifies this`stream, this`naked
      ensures stream == old(stream) + KeyText(k) && !naked
    {
      if IsBare(k) {
        Put(k);
      } else {
        WriteQuoted(k);
      }
    }

    method WriteQuoted(s: string)
      modifies this`stream, this`naked
      ensures stream == old(stream) + Quoted(s) && !naked
    {
      Put("\"");
      var e := EscapeString(s);
      Put(e);
      Put("\"");
    }

    method WritePath()
      modifies this`stream, this`naked
      ensures stream == old(stream) + PathText(path)
    {
      hide PathText, KeyText;
      EmptyPath();
      for i := 0 to |path|
        modifies this`stream, this`naked
        invariant stream == old(stream) + PathText(path[..i])
      {
        PathGrows(path, i);
        Glued(old(stream), PathText(path[..i]), if i > 0 then "." else "", KeyText(path[i]));
        if i > 0 {
          Put(".");
        }
        WriteKey(path[i]);
      }
      assert path[..|path|] == path;
    }

    method WriteTableHeader(inArray: bool)
      modifies this`stream, this`naked
      ensures stream == old(stream) + Unlines(HeaderLines(path, inArray))
      ensures naked == (path != [] || old(naked))
    {
      hide Tabs, PathText, Unlines;
      if path == [] {
        assert Unlines(HeaderLines(path, inArray)) == "" by { NoLines(); }
      } else {
        ghost var out, tabs, text := stream, Tabs(|path| - 1), PathText(path);
        HeaderGlued(out, tabs, text, inArray);
        Indent();
        Put("[");
        if inArray {
          Put("[");
        }
        Same(stream, out + tabs + "[", if inArray then "[" else "");
        WritePath();
        ghost var before := stream;
        if inArray {
          Put("]");
        }
        Same(stream, before, if inArray then "]" else "");
        Put("]");
        Endline();
      }
    }

    method WriteItemHeader(c: Content)
      requires path != []
      modifies this`stream, this`naked
      ensures c.Plain? ==> !naked && stream == old(stream) + Tabs(|path| - 1) + KeyText(path[|path| - 1]) + " = "
      ensures !c.Plain? ==> stream == old(stream) && naked == old(naked)
    {
      if c.Plain? {
        Indent();
        WriteKey(path[|path| - 1]);
        Put(" = ");
      }
    }

    method VisitValue(v: Value)
      modifies this`stream, this`naked
      ensures stream == old(stream) + PrintValue(v) && !naked
      decreases v, 1
    {
      match v
      case Str(s) => WriteQuoted(s);
      case Int(n) => Put(IntText(n));
      case Bool(b) => Put(if b then "true" else "false");
      case Date(d) => Put(DateText(d));
      case Arr(vs) => VisitArray(vs);
    }

    method VisitArray(vs: seq<Value>)
      modifies this`stream, this`naked
      ensures stream == old(stream) + PrintValue(Arr(vs)) && !naked
      decreases vs, 0
    {
      hide ItemsText;
      Put("[");
      ghost var out := stream;
      NoItems();
      for i := 0 to |vs|
        modifies this`stream, this`naked
        invariant stream == out + ItemsText(vs[..i])
      {
        ItemsGrow(vs, i);
        Glued(out, ItemsText(vs[..i]), if i > 0 then ", " else "", PrintValue(vs[i]));
        if i > 0 {
          Put(", ");
        }
        VisitValue(vs[i]);
      }
      assert vs[..|vs|] == vs;
      Put("]");
      assert old(stream) + "[" + ItemsText(vs) + "]" == old(stream) + ("[" + ItemsText(vs) + "]");
    }

    method WriteItem(key: string, v: Value)
      modifies this
      ensures path == old(path) && !naked
      ensures stream == old(stream) + ItemLine(key, v, |path|)
    {
      hide Tabs, KeyText, PrintValue;
      ghost var out, tabs := stream, Tabs(|path|);
      path := path + [key];
      WriteItemHeader(Plain(v));
      assert stream == out + tabs + KeyText(key) + " = ";
      VisitValue(v);
      path := path[..|path| - 1];
      ItemGlued(out, tabs, KeyText(key), PrintValue(v));
    }

    /** The values of a table, one on a line; the last line is left open. */
    method WriteValues(values: seq<Entry>)
      requires forall j :: 0 <= j < |values| ==> values[j].content.Plain?
      modifies this
      ensures path == old(path)
      ensures values == [] ==> stream == old(stream) && naked == old(naked)
      ensures values != [] ==> !naked && stream + "\n" == old(stream) + Unlines(ValueLines(values, |path|))
    {
      hide Unlines, ValueLines, ItemLine;
      ghost var out := stream;
      for i := 0 to |values|
        invariant path == old(path)
        invariant i == 0 ==> stream == out && naked == old(naked)
        invariant i > 0 ==> !naked && stream + "\n" == out + Unlines(ValueLines(values[..i], |path|))
      {
        ValuesGrow(values, i, |path|);
        ghost var line := ItemLine(values[i].key, values[i].content.v, |path|);
        Glued(out, Unlines(ValueLines(values[..i], |path|)), line, "\n");
        if i > 0 {
          Endline();
        }
        WriteItem(values[i].key, values[i].content.v);
      }
      assert values[..|values|] == values;
    }

    /** accept, for what gets a header of its own. */
    method Accept(c: Content)
      requires !c.Plain? && path != []
      modifies this
      ensures path == old(path) && naked
      ensures stream == old(stream) + EmptySeriesGap(c, old(naked)) + Unlines(ContentLines(c, path))
      decreases c
    {
      hide Unlines, TableLines, SeriesLines, StartsEmpty;
      match c
      case Inner(t) =>
        VisitTable(t, false);
      case Series(ts) =>
        VisitSeries(ts);
    }

    method VisitSeries(ts: seq<Listing>)
      requires path != []
      modifies this
      ensures path == old(path) && naked
      ensures stream == old(stream) + EmptySeriesGap(Series(ts), old(naked)) + Unlines(SeriesLines(ts, path))
      decreases ts
    {
      hide Unlines, TableLines, SeriesLines, StartsEmpty;
      ghost var out := stream;
      NoSeries(path);
      for j := 0 to |ts|
        invariant path == old(path)
        invariant j == 0 ==> naked == old(naked)
        invariant j > 0 ==> naked
        invariant stream == out + Unlines(SeriesLines(ts[..j], path))
      {
        SeriesGrow(ts, j, path);
        Glued(out, Unlines(SeriesLines(ts[..j], path)), "", Unlines(TableLines(ts[j], path, true)));
        if j > 0 {
          Endline();
        }
        VisitTable(ts[j], true);
      }
      assert ts[..|ts|] == ts;
      Endline();
    }

    /** The tables of `t`, each on lines of its own behind the values. */
    method WriteTables(tables: seq<Entry>, afterValues: bool, ghost t: Listing, ghost at: seq<nat>)
      requires |at| == |tables|
      requires forall j :: 0 <= j < |at| ==>
                 at[j] < |t.items| && tables[j] == t.items[at[j]] && !tables[j].content.Plain?
      requires afterValues ==> !naked
      modifies this
      ensures path == old(path)
      ensures tables == [] ==> stream == old(stream) && naked == old(naked)
      ensures tables != [] ==> naked
      ensures tables != [] ==>
                stream == old(stream) + TablesGap(tables, afterValues, old(naked)) + Unlines(SubLines(tables, path))
      decreases t, 0
    {
      hide Unlines, ContentLines, SubLines;
      ghost var out := stream;
      ghost var gap := if tables == [] then "" else TablesGap(tables, afterValues, naked);
      for i := 0 to |tables|
        invariant path == old(path)
        invariant i == 0 ==> stream == out && naked == old(naked)
        invariant i > 0 ==> naked && stream == out + gap + Unlines(SubLines(tables[..i], path))
      {
        SubsGrow(tables, i, path);
        ghost var lines := Unlines(ContentLines(tables[i].content, path + [tables[i].key]));
        Glued(out + gap, Unlines(SubLines(tables[..i], path)), "", lines);
        path := path + [tables[i].key];
        if afterValues || i > 0 {
          Endline();
        }
        WriteItemHeader(tables[i].content);
        assert tables[i] == t.items[at[i]];
        Accept(tables[i].content);
        path := path[..|path| - 1];
      }
      assert tables[..|tables|] == tables;
    }

    /** Header, values, tables; the path is restored. */
    method VisitTable(t: Listing, inArray: bool)
      modifies this
      ensures path == old(path) && naked
      ensures stream == old(stream) + Lead(t, path, old(naked)) + Unlines(TableLines(t, path, inArray))
      decreases t, 1
    {
      hide Unlines, HeaderLines, ValueLines, SubLines;
      ghost var out := stream;
      WriteTableHeader(inArray);
      var values, tables := Sort(t.items);
      ghost var at := SubsAt(t.items);
      ValuesArePlain(t.items);
      WriteValues(values);
      WriteTables(tables, |values| > 0, t, at);
      Endline();
      TableGlued(t, path, inArray, out, old(naked));
    }
  }

  method WriteDocument(t: Listing) returns (s: string)
    ensures s == Write(t)
  {
    hide Unlines, TableLines, StartsEmpty;
    var w := new Writer();
    w.VisitTable(t, false);
    s := w.stream;
    UnlinesOne("");
    NoLines();
    UnlinesAppend(if StartsEmpty(t) then [""] else [], TableLines(t, [], false));
  }
}
