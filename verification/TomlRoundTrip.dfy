/** Reading what the writer printed: src/cpptoml.h reads its own output back. */
module TomlRoundTrip {
  import opened Wrappers
  import opened TomlText
  import opened TomlValues
  import opened TomlKeys
  import opened TomlTree
  import opened TomlListing
  import opened TomlPrinter
  import opened TomlReader
  import opened TomlWriter
  import opened TomlParser
  import TomlDates

  // ---------------------------------------------------------------- one line

  lemma {:induction false} TabsSkipped(n: nat, s: string)
    requires s != "" && !IsBlank(s[0])
    ensures SkipBlanks(Tabs(n) + s) == s
  {
    if n == 0 {
      assert Tabs(n) + s == s;
    } else {
      assert (Tabs(n) + s)[1..] == Tabs(n - 1) + s;
      TabsSkipped(n - 1, s);
    }
  }

  /** The reader takes a printed item to its key and the value it sees. */
  lemma ItemReads(key: string, v: Value, lines: seq<string>, st: Reading)
    requires key != "" && InRangeValue(v) && Valid(st)
    ensures var s := KeyText(key) + (" " + ("= " + PrintValue(v)));
      && s != "" && !IsBlank(s[0]) && s[0] != '#' && s[0] != '['
      && KeyValue(s, lines, st)
         == if key in Current(st) || SeenValue(v).Failure? then Failure
            else Success((Insert(st, key, SeenValue(v).value), lines))
  {
    hide KeyText, ParseKey, PrintValue, ParseValue, SeenValue, Insert, Put, TomlTree.At;
    var value := PrintValue(v);
    KeyReads(key, " ", "= " + value, {'='});
    KindOfPrinted(v, "");
    assert ("= " + value)[1..] == " " + value;
    assert (" " + value)[1..] == value && value + "" == value;
    assert SkipBlanks(" " + value) == value;
    ReadPrintedValue(v, "", lines);
  }

  lemma ItemLineReads(key: string, v: Value, depth: nat, rest: seq<string>, st: Reading)
    requires key != "" && InRangeValue(v) && Valid(st)
    ensures Exec([ItemLine(key, v, depth)] + rest, st)
         == if key in Current(st) || SeenValue(v).Failure? then Failure
            else Exec(rest, Insert(st, key, SeenValue(v).value))
  {
    hide KeyText, PrintValue, SeenValue, Insert, KeyValue, Header, SkipBlanks, TomlTree.At;
    var s := KeyText(key) + (" " + ("= " + PrintValue(v)));
    ItemReads(key, v, rest, st);
    TabsSkipped(depth, s);
    assert ItemLine(key, v, depth) == Tabs(depth) + s;
    var lines := [ItemLine(key, v, depth)] + rest;
    assert lines[0] == Tabs(depth) + s && lines[1..] == rest;
  }

  /** What a header opens. */
  function Opened(path: seq<string>, inArray: bool, root: Table): (r: Result<Table>)
    requires path != []
    ensures r.Success? ==> TomlTree.At(r.value, path).Some?
  {
    if inArray then AppendTable(root, path) else OpenTable(root, path, false)
  }

  lemma HeaderReads(path: seq<string>, inArray: bool, root: Table)
    requires path != [] && NonEmpty(path)
    ensures var s := HeaderText(path, inArray);
      && s != "" && s[0] == '['
      && Header(s[1..], root)
         == match Opened(path, inArray, root) { case Failure => Failure case Success(t) => Success(Reading(t, path)) }
  {
    hide PathText, PathKeys, OpenTable, AppendTable, TomlTree.At;
    var s := HeaderText(path, inArray);
    var tail := if inArray then "]]" else "]";
    PathStarts(path, tail);
    PathReads(path, tail);
    if inArray {
      assert s[1..] == "[" + (PathText(path) + tail);
      assert ("[" + (PathText(path) + tail))[1..] == PathText(path) + tail;
      assert tail[2..] == "" && SkipBlanks("") == "";
    } else {
      assert s[1..] == PathText(path) + tail;
      assert tail[1..] == "" && SkipBlanks("") == "";
    }
  }

  lemma HeaderLineReads(path: seq<string>, inArray: bool, rest: seq<string>, st: Reading)
    requires path != [] && NonEmpty(path) && Valid(st)
    ensures Exec(HeaderLines(path, inArray) + rest, st)
         == (match Opened(path, inArray, st.root)
             case Failure => Failure
             case Success(t) => Exec(rest, Reading(t, path)))
  {
    hide Header, KeyValue, SkipBlanks, TomlTree.At, HeaderText, Opened;
    HeaderReads(path, inArray, st.root);
    TabsSkipped(|path| - 1, HeaderText(path, inArray));
    var lines := HeaderLines(path, inArray) + rest;
    assert lines[0] == Tabs(|path| - 1) + HeaderText(path, inArray) && lines[1..] == rest;
  }

  // ---------------------------------------------------------------- the values of a table

  /** The values of a table as they are seen, without its tables. */
  function SeenPlains(items: seq<Entry>): (r: Result<map<string, Node>>)
    ensures r.Success? ==> forall k :: k in r.value ==> k in PlainKeys(items)
  {
    if items == [] then Success(map[])
    else
      var m :- SeenPlains(items[1..]);
      match items[0].content
      case Plain(v) => var w :- SeenValue(v); Success(map[items[0].key := Leaf(w)] + m)
      case _ => Success(m)
  }

  /** The tables of a table as they are seen, without its values. */
  function SeenSubs(items: seq<Entry>): Result<map<string, Node>> {
    if items == [] then Success(map[])
    else
      var m :- SeenSubs(items[1..]);
      match items[0].content
      case Plain(_) => Success(m)
      case c => var n :- SeenContent(c); Success(Kept(items[0].key, n) + m)
  }

  function PlainKeys(items: seq<Entry>): (s: set<string>)
    ensures s <= Keys(items)
  {
    if items == [] then {}
    else
      KeysSplit(items);
      (if items[0].content.Plain? then {items[0].key} else {}) + PlainKeys(items[1..])
  }

  function SubKeys(items: seq<Entry>): (s: set<string>)
    ensures s <= Keys(items)
  {
    if items == [] then {}
    else
      KeysSplit(items);
      (if items[0].content.Plain? then {} else {items[0].key}) + SubKeys(items[1..])
  }

  lemma {:induction false} KeysApart(items: seq<Entry>)
    requires EveryItems(items, WRITABLE)
    ensures PlainKeys(items) !! SubKeys(items)
  {
    if items != [] {
      KeysApart(items[1..]);
    }
  }

  lemma Swapped(vs: map<string, Node>, k: string, n: Node, ss: map<string, Node>)
    requires k !in vs
    ensures vs + (Kept(k, n) + ss) == Kept(k, n) + (vs + ss)
    ensures map[k := n] + vs + ss == map[k := n] + (vs + ss)
  {
  }

  /** Values and tables together are everything. */
  lemma {:induction false} SeenTogether(items: seq<Entry>)
    requires EveryItems(items, WRITABLE)
    ensures SeenEntries(items)
         == if SeenPlains(items).Success? && SeenSubs(items).Success?
            then Success(SeenPlains(items).value + SeenSubs(items).value) else Failure
  {
    hide SeenContent, EveryContent, SeenValue, Keys;
    if items == [] {
      assert map[] + SeenSubs(items).value == map[];
    } else {
      SeenTogether(items[1..]);
      ContentSeen(items[0].content);
      var n, vs, ss := SeenContent(items[0].content), SeenPlains(items[1..]), SeenSubs(items[1..]);
      if n.Success? && vs.Success? && ss.Success? {
        Swapped(vs.value, items[0].key, n.value, ss.value);
      }
    }
  }

  lemma ContentSeen(c: Content)
    ensures c.Plain? ==>
              SeenContent(c) == if SeenValue(c.v).Success? then Success(Leaf(SeenValue(c.v).value)) else Failure
  {
  }

  // ---------------------------------------------------------------- many lines

  /** Reading `lines` from `st` turns the table at `path` into `t`, whatever follows, and leaves `cur` current; or
      it fails when there is no `t`. */
  predicate Reads(lines: seq<string>, st: Reading, rest: seq<string>, path: seq<string>, t: Result<Table>,
                  cur: seq<string>)
    requires Valid(st) && TomlTree.At(st.root, path).Some?
  {
    match t
    case Failure => Exec(lines + rest, st).Failure?
    case Success(s) =>
      && TomlTree.At(Put(st.root, path, s), cur).Some?
      && Exec(lines + rest, st) == Exec(rest, Reading(Put(st.root, path, s), cur))
  }

  lemma ReadsNothing(st: Reading, rest: seq<string>, path: seq<string>)
    requires Valid(st) && TomlTree.At(st.root, path).Some?
    ensures Reads([], st, rest, path, Success(TomlTree.At(st.root, path).value), st.cur)
  {
    hide Exec, Put, TomlTree.At;
    PutSame(st.root, path);
    assert [] + rest == rest;
  }

  /** One block after the other. */
  lemma ReadsBoth(a: seq<string>, b: seq<string>, st: Reading, rest: seq<string>, path: seq<string>,
                  s: Table, cur: seq<string>, t: Result<Table>, cur': seq<string>)
    requires Valid(st) && TomlTree.At(st.root, path).Some?
    requires Reads(a, st, b + rest, path, Success(s), cur)
    requires Reads(b, Reading(Put(st.root, path, s), cur), rest, path, t, cur')
    ensures Reads(a + b, st, rest, path, t, cur')
  {
    hide Exec, Put, TomlTree.At;
    assert a + b + rest == a + (b + rest);
    if t.Success? {
      PutPut(st.root, path, s, t.value);
    }
  }

  lemma ReadsFirst(a: seq<string>, b: seq<string>, st: Reading, rest: seq<string>, path: seq<string>, cur: seq<string>)
    requires Valid(st) && TomlTree.At(st.root, path).Some?
    requires Reads(a, st, b + rest, path, Failure, cur)
    ensures Reads(a + b, st, rest, path, Failure, cur)
  {
    hide Exec, Put, TomlTree.At;
    assert a + b + rest == a + (b + rest);
  }

  /** What a table becomes when entries are added. */
  function Plus(t: Table, m: Result<map<string, Node>>): Result<Table> {
    match m
    case Failure => Failure
    case Success(n) => Success(Table(t.entries + n))
  }

  lemma PlusTwice(t: Table, first: map<string, Node>, m: Result<map<string, Node>>)
    ensures Plus(Table(t.entries + first), m) == Plus(t, if m.Success? then Success(first + m.value) else Failure)
  {
    if m.Success? {
      assert t.entries + first + m.value == t.entries + (first + m.value);
    }
  }

  lemma PlainRead(key: string, v: Value, depth: nat, st: Reading, rest: seq<string>)
    requires key != "" && InRangeValue(v) && Valid(st) && key !in Current(st)
    ensures var w := SeenValue(v);
      Reads([ItemLine(key, v, depth)], st, rest, st.cur,
            if w.Success? then Success(Table(Current(st) + map[key := Leaf(w.value)])) else Failure, st.cur)
  {
    hide Exec, Put, TomlTree.At, SeenValue, ItemLine;
    ItemLineReads(key, v, depth, rest, st);
    var w := SeenValue(v);
    if w.Success? {
      assert Current(st) + map[key := Leaf(w.value)] == Current(st)[key := Leaf(w.value)];
      assert Insert(st, key, w.value)
          == Reading(Put(st.root, st.cur, Table(Current(st) + map[key := Leaf(w.value)])), st.cur);
    }
  }

  /** The values of the current table. */
  lemma {:induction false} PlainsRead(items: seq<Entry>, depth: nat, st: Reading, rest: seq<string>)
    requires EveryItems(items, WRITABLE) && Valid(st)
    requires forall k :: k in PlainKeys(items) ==> k !in Current(st)
    ensures Reads(ValueLines(items, depth), st, rest, st.cur,
                  Plus(TomlTree.At(st.root, st.cur).value, SeenPlains(items)), st.cur)
    decreases items
  {
    hide Exec, Put, TomlTree.At, InRangeValue, SeenValue, Keys, Reads, ItemLine;
    var x := TomlTree.At(st.root, st.cur).value;
    if items == [] {
      assert x.entries + map[] == x.entries;
      ReadsNothing(st, rest, st.cur);
    } else {
      var others := ValueLines(items[1..], depth);
      match items[0].content
      case Plain(v) =>
        var key, line := items[0].key, [ItemLine(items[0].key, v, depth)];
        var w := SeenValue(v);
        PlainRead(key, v, depth, st, others + rest);
        if w.Failure? {
          ReadsFirst(line, others, st, rest, st.cur, st.cur);
        } else {
          var first := map[key := Leaf(w.value)];
          var s := Table(x.entries + first);
          var st' := Reading(Put(st.root, st.cur, s), st.cur);
          PlainsRead(items[1..], depth, st', rest);
          PlusTwice(x, first, SeenPlains(items[1..]));
          ReadsBoth(line, others, st, rest, st.cur, s, st.cur, Plus(s, SeenPlains(items[1..])), st.cur);
        }
      case _ =>
        assert [] + others == others;
        PlainsRead(items[1..], depth, st, rest);
    }
  }

  // ---------------------------------------------------------------- tables

  /** A table printed below `path` under the key `k`, once its header has put `n` there. */
  lemma {:induction false} TableReads(t: Listing, st: Reading, rest: seq<string>, path: seq<string>, k: string,
                                      inArray: bool, n: Node) returns (cur: seq<string>)
    requires Writable(t) && Valid(st) && NonEmpty(path) && k != ""
    requires TomlTree.At(st.root, path).Some? && Down(n) == Some(EMPTY)
    requires var x := TomlTree.At(st.root, path).value;
      Opened(path + [k], inArray, st.root) == Success(Put(st.root, path, Table(x.entries[k := n])))
    ensures var x := TomlTree.At(st.root, path).value;
      Reads(TableLines(t, path + [k], inArray), st, rest, path,
            if Seen(t).Success? then Success(Table(x.entries[k := Into(n, Seen(t).value)])) else Failure, cur)
    decreases t, 2
  {
    hide Exec, Put, TomlTree.At, HeaderLines, ValueLines, SubLines, SeenEntries, Opened, EveryItems;
    var x := TomlTree.At(st.root, path).value;
    var root1 := Put(st.root, path, Table(x.entries[k := n]));
    var p := path + [k];
    var body := ValueLines(t.items, |p|) + SubLines(t.items, p);
    HeaderLineReads(p, inArray, body + rest, st);
    assert TableLines(t, p, inArray) + rest == HeaderLines(p, inArray) + (body + rest);
    Deeper(root1, path, k, EMPTY);
    cur := BodyReads(t.items, Reading(root1, p), rest);
    if Seen(t).Success? {
      assert EMPTY.entries + Seen(t).value.entries == Seen(t).value.entries;
      Deeper(root1, path, k, Seen(t).value);
      PutPut(st.root, path, Table(x.entries[k := n]), Table(x.entries[k := n][k := Into(n, Seen(t).value)]));
      assert x.entries[k := n][k := Into(n, Seen(t).value)] == x.entries[k := Into(n, Seen(t).value)];
    }
  }

  /** The values and tables of the current table, which is empty. */
  lemma {:induction false} BodyReads(items: seq<Entry>, st: Reading, rest: seq<string>) returns (cur: seq<string>)
    requires EveryItems(items, WRITABLE) && Valid(st) && NonEmpty(st.cur)
    requires TomlTree.At(st.root, st.cur) == Some(EMPTY)
    ensures Reads(ValueLines(items, |st.cur|) + SubLines(items, st.cur), st, rest, st.cur,
                  Plus(EMPTY, SeenEntries(items)), cur)
    decreases items, 2
  {
    hide Exec, Put, TomlTree.At, ValueLines, SubLines, EveryItems, Reads, SeenEntries,
         PlainKeys, SubKeys, SeenPlains, SeenSubs;
    var values, subs := ValueLines(items, |st.cur|), SubLines(items, st.cur);
    SeenTogether(items);
    KeysApart(items);
    PlainsRead(items, |st.cur|, st, subs + rest);
    if SeenPlains(items).Failure? {
      cur := st.cur;
      ReadsFirst(values, subs, st, rest, st.cur, st.cur);
    } else {
      var m := SeenPlains(items).value;
      var s := Table(EMPTY.entries + m);
      assert s.entries == m;
      cur := SubsRead(items, Reading(Put(st.root, st.cur, s), st.cur), st.cur, rest);
      PlusTwice(EMPTY, m, SeenSubs(items));
      ReadsBoth(values, subs, st, rest, st.cur, s, st.cur, Plus(s, SeenSubs(items)), cur);
    }
  }

  /** The tables below `path`. */
  lemma {:induction false} SubsRead(items: seq<Entry>, st: Reading, path: seq<string>, rest: seq<string>)
    returns (cur: seq<string>)
    requires EveryItems(items, WRITABLE) && Valid(st) && NonEmpty(path)
    requires TomlTree.At(st.root, path).Some?
    requires forall k :: k in SubKeys(items) ==> k !in TomlTree.At(st.root, path).value.entries
    ensures Reads(SubLines(items, path), st, rest, path, Plus(TomlTree.At(st.root, path).value, SeenSubs(items)), cur)
    decreases items, 1
  {
    hide Exec, Put, TomlTree.At, EveryContent, Keys, Reads, SeenContent, ContentLines;
    var x := TomlTree.At(st.root, path).value;
    if items == [] {
      cur := st.cur;
      assert x.entries + map[] == x.entries;
      ReadsNothing(st, rest, path);
    } else if items[0].content.Plain? {
      PlainHasNoLines(items[0].content, path + [items[0].key]);
      assert [] + SubLines(items[1..], path) == SubLines(items[1..], path);
      cur := SubsRead(items[1..], st, path, rest);
    } else {
      var first, others := ContentLines(items[0].content, path + [items[0].key]), SubLines(items[1..], path);
      var n := SeenContent(items[0].content);
      cur := ContentReads(items[0].content, st, others + rest, path, items[0].key);
      if n.Failure? {
        ReadsFirst(first, others, st, rest, path, cur);
      } else {
        var kept := Kept(items[0].key, n.value);
        var s := Table(x.entries + kept);
        var cur1 := cur;
        ReadsValid(first, st, others + rest, path, s, cur1);
        cur := SubsRead(items[1..], Reading(Put(st.root, path, s), cur1), path, rest);
        PlusTwice(x, kept, SeenSubs(items[1..]));
        ReadsBoth(first, others, st, rest, path, s, cur1, Plus(s, SeenSubs(items[1..])), cur);
      }
    }
  }

  lemma PlainHasNoLines(c: Content, path: seq<string>)
    requires c.Plain?
    ensures ContentLines(c, path) == []
  {
  }

  lemma ReadsValid(lines: seq<string>, st: Reading, rest: seq<string>, path: seq<string>, s: Table, cur: seq<string>)
    requires Valid(st) && TomlTree.At(st.root, path).Some?
    requires Reads(lines, st, rest, path, Success(s), cur)
    ensures Valid(Reading(Put(st.root, path, s), cur))
  {
  }

  /** A table or an array of tables below `path` under a new key. */
  lemma {:induction false} ContentReads(c: Content, st: Reading, rest: seq<string>, path: seq<string>, k: string)
    returns (cur: seq<string>)
    requires !c.Plain? && EveryContent(c, WRITABLE) && Valid(st) && NonEmpty(path) && k != ""
    requires TomlTree.At(st.root, path).Some? && k !in TomlTree.At(st.root, path).value.entries
    ensures var x := TomlTree.At(st.root, path).value;
      Reads(ContentLines(c, path + [k]), st, rest, path,
            if SeenContent(c).Success? then Success(Table(x.entries + Kept(k, SeenContent(c).value))) else Failure, cur)
    decreases c
  {
    hide Exec, Put, TomlTree.At, Reads, Seen, SeenSeries, TableLines, SeriesLines, OpenTable, Every, EverySeries;
    var x := TomlTree.At(st.root, path).value;
    match c
    case Inner(t) =>
      OpenNew(st.root, path, k, false);
      cur := TableReads(t, st, rest, path, k, false, Sub(EMPTY));
      if Seen(t).Success? {
        assert x.entries[k := Sub(Seen(t).value)] == x.entries + map[k := Sub(Seen(t).value)];
      }
    case Series(ts) =>
      cur := SeriesReads(ts, st, rest, path, k, []);
      if SeenSeries(ts).Success? {
        SeriesKept(x, k, SeenSeries(ts).value);
      }
  }

  /** The array under the key `k` once `ts` is in it. */
  function WithSeries(x: Table, k: string, ts: seq<Table>): Table {
    if ts == [] then x else Table(x.entries[k := Many(ts)])
  }

  lemma SeriesKept(x: Table, k: string, ts: seq<Table>)
    ensures WithSeries(x, k, [] + ts) == Table(x.entries + Kept(k, Many(ts)))
  {
    assert [] + ts == ts;
    if ts == [] {
      assert x.entries + map[] == x.entries;
    } else {
      assert x.entries[k := Many(ts)] == x.entries + map[k := Many(ts)];
    }
  }

  /** The array can grow: it is not there yet, or holds `before`. */
  predicate HoldsSeries(x: Table, k: string, before: seq<Table>) {
    if before == [] then k !in x.entries else k in x.entries && x.entries[k] == Many(before)
  }

  /** The next table of an array. */
  lemma {:induction false} NextOfSeries(t: Listing, st: Reading, rest: seq<string>, path: seq<string>, k: string,
                                        before: seq<Table>) returns (cur: seq<string>)
    requires Writable(t) && Valid(st) && NonEmpty(path) && k != ""
    requires TomlTree.At(st.root, path).Some? && HoldsSeries(TomlTree.At(st.root, path).value, k, before)
    ensures var x := TomlTree.At(st.root, path).value;
      Reads(TableLines(t, path + [k], true), st, rest, path,
            if Seen(t).Success? then Success(WithSeries(x, k, before + [Seen(t).value])) else Failure, cur)
    decreases t, 3
  {
    hide Exec, Put, TomlTree.At, Reads, Seen, TableLines, AppendTable, Every;
    var x := TomlTree.At(st.root, path).value;
    var n := Many(before + [EMPTY]);
    AppendNew(st.root, path, k);
    assert before == [] ==> before + [EMPTY] == [] + [EMPTY];
    cur := TableReads(t, st, rest, path, k, true, n);
    if Seen(t).Success? {
      assert Into(n, Seen(t).value) == Many(before + [Seen(t).value]);
    }
  }

  /** The tables of an array, one and then the others. */
  lemma SeriesJoined(first: seq<string>, others: seq<string>, st: Reading, rest: seq<string>, path: seq<string>,
                     x: Table, k: string, before: seq<Table>, t: Table, more: Result<seq<Table>>,
                     cur: seq<string>, cur': seq<string>)
    requires Valid(st) && TomlTree.At(st.root, path).Some?
    requires var s := WithSeries(x, k, before + [t]);
      && Reads(first, st, others + rest, path, Success(s), cur)
      && Valid(Reading(Put(st.root, path, s), cur))
      && Reads(others, Reading(Put(st.root, path, s), cur), rest, path,
               if more.Success? then Success(WithSeries(s, k, before + [t] + more.value)) else Failure, cur')
    ensures Reads(first + others, st, rest, path,
                  if more.Success? then Success(WithSeries(x, k, before + ([t] + more.value))) else Failure, cur')
  {
    hide Exec, Put, TomlTree.At, Reads;
    var s := WithSeries(x, k, before + [t]);
    if more.Success? {
      assert before + ([t] + more.value) == before + [t] + more.value;
      assert WithSeries(s, k, before + [t] + more.value) == WithSeries(x, k, before + [t] + more.value);
      ReadsBoth(first, others, st, rest, path, s, cur, Success(WithSeries(s, k, before + [t] + more.value)), cur');
    } else {
      ReadsBoth(first, others, st, rest, path, s, cur, Failure, cur');
    }
  }

  /** The tables of an array, behind those it has already. */
  lemma {:induction false} SeriesReads(ts: seq<Listing>, st: Reading, rest: seq<string>, path: seq<string>, k: string,
                                       before: seq<Table>) returns (cur: seq<string>)
    requires EverySeries(ts, WRITABLE) && Valid(st) && NonEmpty(path) && k != ""
    requires TomlTree.At(st.root, path).Some? && HoldsSeries(TomlTree.At(st.root, path).value, k, before)
    ensures var x := TomlTree.At(st.root, path).value;
      Reads(SeriesLines(ts, path + [k]), st, rest, path,
            if SeenSeries(ts).Success? then Success(WithSeries(x, k, before + SeenSeries(ts).value)) else Failure, cur)
    decreases ts
  {
    hide Exec, Put, TomlTree.At, Reads, Seen, TableLines, AppendTable, Every, NonEmpty;
    var x := TomlTree.At(st.root, path).value;
    if ts == [] {
      cur := st.cur;
      SeriesStays(x, k, before);
      ReadsNothing(st, rest, path);
    } else {
      var first, others := TableLines(ts[0], path + [k], true), SeriesLines(ts[1..], path + [k]);
      var cur1 := NextOfSeries(ts[0], st, others + rest, path, k, before);
      if Seen(ts[0]).Failure? {
        cur := cur1;
        ReadsFirst(first, others, st, rest, path, cur);
      } else {
        var t := Seen(ts[0]).value;
        var s := WithSeries(x, k, before + [t]);
        ReadsValid(first, st, others + rest, path, s, cur1);
        cur := SeriesReads(ts[1..], Reading(Put(st.root, path, s), cur1), rest, path, k, before + [t]);
        SeriesJoined(first, others, st, rest, path, x, k, before, t, SeenSeries(ts[1..]), cur1, cur);
      }
    }
  }

  lemma SeriesStays(x: Table, k: string, before: seq<Table>)
    requires HoldsSeries(x, k, before)
    ensures WithSeries(x, k, before + []) == x
  {
    assert before + [] == before;
    if before != [] {
      assert x.entries[k := Many(before)] == x.entries;
    }
  }

  // ---------------------------------------------------------------- the whole document

  predicate OneLine(s: string) {
    '\n' !in s
  }

  predicate AllOneLine(lines: seq<string>) {
    forall i :: 0 <= i < |lines| ==> OneLine(lines[i])
  }

  lemma {:induction false} EscapedIsOneLine(s: string)
    ensures OneLine(Escape(s))
  {
    if s != "" {
      EscapedIsOneLine(s[1..]);
    }
  }

  lemma {:induction false} TabsAreOneLine(n: nat)
    ensures OneLine(Tabs(n))
  {
    if n > 0 {
      TabsAreOneLine(n - 1);
    }
  }

  lemma KeyIsOneLine(k: string)
    ensures OneLine(KeyText(k))
  {
    EscapedIsOneLine(k);
    assert IsBare(k) ==> forall i :: 0 <= i < |k| ==> IsBareChar(k[i]);
  }

  lemma {:induction false} PathIsOneLine(path: seq<string>)
    ensures OneLine(PathText(path))
  {
    hide KeyText;
    if path != [] {
      KeyIsOneLine(path[0]);
      PathIsOneLine(path[1..]);
    }
  }

  lemma {:induction false} ValueIsOneLine(v: Value)
    requires InRangeValue(v)
    ensures OneLine(PrintValue(v))
    decreases v, 0
  {
    match v
    case Str(s) => EscapedIsOneLine(s);
    case Int(n) => IntStarts(n);
    case Bool(_) =>
    case Date(d) => TomlDates.DateTextChars(d);
    case Arr(vs) => ItemsAreOneLine(vs);
  }

  lemma {:induction false} ItemsAreOneLine(vs: seq<Value>)
    requires InRangeItems(vs)
    ensures OneLine(ItemsText(vs))
    decreases vs, 0
  {
    hide PrintValue, InRangeValue;
    if vs != [] {
      ValueIsOneLine(vs[0]);
      ItemsAreOneLine(vs[1..]);
    }
  }

  lemma FirstLine(line: string, rest: string)
    requires OneLine(line)
    ensures Lines(line + ("\n" + rest)) == [line] + Lines(rest)
  {
    hide LineLength;
    var s := line + ("\n" + rest);
    LineLengthIs(line, rest);
    assert s[..|line|] == line;
    assert s[|line| + 1..] == rest;
  }

  lemma {:induction false} LinesOfUnlines(lines: seq<string>)
    requires AllOneLine(lines)
    ensures Lines(Unlines(lines)) == lines
  {
    hide Lines;
    if lines == [] {
      assert Lines("") == [] by { NothingToRead(); }
    } else {
      LinesOfUnlines(lines[1..]);
      FirstLine(lines[0], Unlines(lines[1..]));
      assert Unlines(lines) == lines[0] + ("\n" + Unlines(lines[1..]));
    }
  }

  lemma NothingToRead()
    ensures Lines("") == []
  {
  }

  lemma {:induction false} LineLengthIs(line: string, rest: string)
    requires OneLine(line)
    ensures LineLength(line + ("\n" + rest)) == |line|
  {
    var s := line + ("\n" + rest);
    if line == "" {
      assert s == "\n" + rest;
    } else {
      assert s[1..] == line[1..] + ("\n" + rest);
      LineLengthIs(line[1..], rest);
    }
  }

  lemma {:induction false} TableIsLines(t: Listing, path: seq<string>, inArray: bool)
    requires Sound(t)
    ensures AllOneLine(TableLines(t, path, inArray))
    decreases t, 1
  {
    hide EveryItems, ValueLines, SubLines, Tabs, PathText;
    if path != [] {
      TabsAreOneLine(|path| - 1);
      PathIsOneLine(path);
    }
    ValuesAreLines(t.items, |path|);
    SubsAreLines(t.items, path);
  }

  lemma {:induction false} ValuesAreLines(items: seq<Entry>, depth: nat)
    requires EveryItems(items, SOUND)
    ensures AllOneLine(ValueLines(items, depth))
  {
    hide KeyText, PrintValue, Keys, Tabs, InRangeValue;
    if items != [] {
      ValuesAreLines(items[1..], depth);
      match items[0].content
      case Plain(v) =>
        TabsAreOneLine(depth);
        KeyIsOneLine(items[0].key);
        ValueIsOneLine(v);
      case _ =>
    }
  }

  lemma {:induction false} SubsAreLines(items: seq<Entry>, path: seq<string>)
    requires EveryItems(items, SOUND)
    ensures AllOneLine(SubLines(items, path))
    decreases items, 0
  {
    hide TableLines, SeriesLines, Keys, Every, EverySeries;
    if items != [] {
      SubsAreLines(items[1..], path);
      match items[0].content
      case Inner(t) => TableIsLines(t, path + [items[0].key], false);
      case Series(ts) => SeriesIsLines(ts, path + [items[0].key]);
      case _ =>
    }
  }

  lemma {:induction false} SeriesIsLines(ts: seq<Listing>, path: seq<string>)
    requires EverySeries(ts, SOUND)
    ensures AllOneLine(SeriesLines(ts, path))
    decreases ts, 0
  {
    hide TableLines, Every;
    if ts != [] {
      TableIsLines(ts[0], path, true);
      SeriesIsLines(ts[1..], path);
    }
  }

  /** Every header and every item stands alone on its line. */
  lemma WrittenLines(t: Listing)
    requires Sound(t)
    ensures Lines(Write(t)) == DocumentLines(t)
  {
    hide TableLines, Unlines, Lines;
    TableIsLines(t, [], false);
    LinesOfUnlines(DocumentLines(t));
  }

  lemma EmptyLineSkipped(rest: seq<string>, st: Reading)
    requires Valid(st)
    ensures Exec([""] + rest, st) == Exec(rest, st)
  {
    assert ([""] + rest)[1..] == rest;
  }

  /** What the writer prints reads back as the table that is seen, in whatever order the table is iterated. */
  lemma ParseWrite(t: Listing)
    requires Writable(t)
    ensures Parse(Write(t)) == Seen(t)
  {
    hide Exec, Lines, ValueLines, SubLines, Put, SeenEntries, EveryItems;
    var st := Reading(EMPTY, []);
    var lines := TableLines(t, [], false);
    WritableIs(t);
    WrittenLines(t);
    var cur := BodyReads(t.items, st, []);
    assert lines == ValueLines(t.items, 0) + SubLines(t.items, []) && lines + [] == lines;
    if StartsEmpty(t) {
      EmptyLineSkipped(lines, st);
    } else {
      assert [] + lines == lines;
    }
    if Seen(t).Success? {
      var s := Seen(t).value;
      assert EMPTY.entries + s.entries == s.entries;
      ExecNothing(Reading(Put(EMPTY, [], s), cur));
      PutAtRoot(EMPTY, s);
    }
  }

  lemma ExecNothing(st: Reading)
    requires Valid(st)
    ensures Exec([], st) == Success(st)
  {
  }

  lemma PutAtRoot(t: Table, s: Table)
    ensures Put(t, [], s) == s
  {
  }

  /** The round trip: exactly the readable tables come back. */
  lemma RoundTrip(t: Listing)
    requires Writable(t)
    ensures Parse(Write(t)) == Success(Forget(t)) <==> Readable(t)
  {
    hide Parse, Write, Seen, Forget, Every;
    ParseWrite(t);
    SeenIsForgotten(t);
  }

  lemma OneEntry(key: string, c: Content)
    requires key != "" && EveryContent(c, WRITABLE)
    ensures Writable(Listing([Entry(key, c)]))
    ensures Seen(Listing([Entry(key, c)]))
         == if SeenContent(c).Success? then Success(Table(Kept(key, SeenContent(c).value))) else Failure
  {
    hide SeenContent, EveryContent;
    var items := [Entry(key, c)];
    assert items[1..] == [] && Keys([]) == {};
    assert SeenEntries(items[1..]) == Success(map[]);
    assert EveryItems(items, WRITABLE);
    assert SeenContent(c).Failure? ==> SeenEntries(items) == Failure;
    var t := Listing(items);
    assert t.items == items;
    if SeenContent(c).Success? {
      assert SeenEntries(items) == Success(Kept(key, SeenContent(c).value) + map[]);
      assert Kept(key, SeenContent(c).value) + map[] == Kept(key, SeenContent(c).value);
    }
  }

  /** Three tables that do not come back: a boolean array is refused, an empty array of tables disappears, and a
      date loses the sign of its offset. */
  lemma NotReadable()
    ensures Parse(Write(Listing([Entry("a", Plain(Arr([Bool(true)])))]))) == Failure
    ensures Parse(Write(Listing([Entry("a", Series([]))]))) == Success(EMPTY)
    ensures var d := TomlDates.DateTime(2016, 2, 29, 12, 0, 0, 0, 0, 30);
            Parse(Write(Listing([Entry("a", Plain(Date(d)))])))
              == Success(Table(map["a" := Leaf(Date(d.(minuteOffset := -30)))]))
  {
    hide Parse, Write, Seen, Every;
    var d := TomlDates.DateTime(2016, 2, 29, 12, 0, 0, 0, 0, 30);
    OneEntry("a", Plain(Arr([Bool(true)])));
    OneEntry("a", Series([]));
    OneEntry("a", Plain(Date(d)));
    ParseWrite(Listing([Entry("a", Plain(Arr([Bool(true)])))]));
    ParseWrite(Listing([Entry("a", Series([]))]));
    ParseWrite(Listing([Entry("a", Plain(Date(d)))]));
    assert [Bool(true)][0] == Bool(true);
  }

  /** Two iteration orders of one table are written as texts that read as the same table, or are both refused. */
  lemma AnyOrder(t: Listing, u: Listing)
    requires Writable(t) && Writable(u) && Forget(t) == Forget(u)
    ensures Parse(Write(t)) == Parse(Write(u))
  {
    hide Parse, Write, SeenEntries;
    ParseWrite(t);
    ParseWrite(u);
    SameItems(t.items, u.items);
  }

  /** The writer and the parser themselves, one after the other. */
  method Reload(t: Listing) returns (r: Result<Table>)
    requires Writable(t)
    ensures r == Seen(t)
    ensures r == Success(Forget(t)) <==> Readable(t)
  {
    hide Parse, Write, Seen, Forget, Every;
    var text := WriteDocument(t);
    r := ParseText(text);
    ParseWrite(t);
    RoundTrip(t);
  }
}
