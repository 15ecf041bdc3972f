/** What the reader of src/cpptoml.h has read stays as it is: later lines only add. */
module TomlGrowth {
  import opened Wrappers
  import opened Decimal
  import opened TomlText
  import opened TomlKeys
  import opened TomlTree
  import opened TomlReader
  import opened TomlAccepted
  import TomlPrinter
  import TomlRoundTrip
  import TomlValues

  /** `u` holds everything that `t` holds: values unchanged, tables with at least their entries, arrays of tables
      with the same tables, of which only the last may have gained entries. */
  ghost predicate Extends(t: Table, u: Table)
    decreases t
  {
    forall k :: k in t.entries ==> k in u.entries && NodeExtends(t.entries[k], u.entries[k])
  }

  ghost predicate NodeExtends(n: Node, m: Node)
    decreases n
  {
    match n
    case Leaf(_) => m == n
    case Sub(t) => m.Sub? && Extends(t, m.t)
    case Many(ts) =>
      && m.Many? && |ts| <= |m.ts|
      && (ts != [] ==> ts[..|ts| - 1] == m.ts[..|ts| - 1] && Extends(ts[|ts| - 1], m.ts[|ts| - 1]))
  }

  lemma {:induction false} ExtendsSelf(t: Table)
    ensures Extends(t, t)
    decreases t
  {
    forall k | k in t.entries ensures NodeExtends(t.entries[k], t.entries[k]) {
      NodeExtendsSelf(t.entries[k]);
    }
  }

  lemma {:induction false} NodeExtendsSelf(n: Node)
    ensures NodeExtends(n, n)
    decreases n
  {
    match n
    case Leaf(_) =>
    case Sub(t) => ExtendsSelf(t);
    case Many(ts) =>
      if ts != [] {
        ExtendsSelf(ts[|ts| - 1]);
      }
  }

  lemma {:induction false} ExtendsTwice(t: Table, u: Table, w: Table)
    requires Extends(t, u) && Extends(u, w)
    ensures Extends(t, w)
    decreases t
  {
    forall k | k in t.entries ensures k in w.entries && NodeExtends(t.entries[k], w.entries[k]) {
      NodeExtendsTwice(t.entries[k], u.entries[k], w.entries[k]);
    }
  }

  lemma {:induction false} NodeExtendsTwice(n: Node, m: Node, o: Node)
    requires NodeExtends(n, m) && NodeExtends(m, o)
    ensures NodeExtends(n, o)
    decreases n
  {
    match n
    case Leaf(_) =>
    case Sub(t) => ExtendsTwice(t, m.t, o.t);
    case Many(ts) =>
      if ts != [] {
        var i := |ts| - 1;
        LastOf(m, o, i);
        assert o.ts[..i] == m.ts[..i];
        ExtendsTwice(ts[i], m.ts[i], o.ts[i]);
      }
  }

  /** Each table of an extended array is extended. */
  lemma LastOf(m: Node, o: Node, i: nat)
    requires m.Many? && NodeExtends(m, o) && i < |m.ts|
    ensures Extends(m.ts[i], o.ts[i]) && o.ts[..i] == m.ts[..i]
  {
    var last := |m.ts| - 1;
    if i < last {
      assert m.ts[i] == m.ts[..last][i] == o.ts[..last][i] == o.ts[i];
      ExtendsSelf(m.ts[i]);
    }
    assert m.ts[..i] == m.ts[..last][..i];
    assert o.ts[..i] == o.ts[..last][..i];
  }

  // ---------------------------------------------------------------- the steps of the reader

  /** Replacing the node under a key by one that extends it. */
  lemma UpdateExtends(t: Table, k: string, m: Node)
    requires k in t.entries ==> NodeExtends(t.entries[k], m)
    ensures Extends(t, Table(t.entries[k := m]))
  {
    forall j | j in t.entries && j != k ensures NodeExtends(t.entries[j], t.entries[j]) {
      NodeExtendsSelf(t.entries[j]);
    }
  }

  lemma IntoExtends(n: Node, s: Table)
    requires Down(n).Some? && Extends(Down(n).value, s)
    ensures NodeExtends(n, Into(n, s))
  {
  }

  lemma {:induction false} PutExtends(t: Table, path: seq<string>, s: Table)
    requires At(t, path).Some? && Extends(At(t, path).value, s)
    ensures Extends(t, Put(t, path, s))
    decreases path
  {
    hide Extends, NodeExtends;
    if path != [] {
      var n := t.entries[path[0]];
      PutExtends(Down(n).value, path[1..], s);
      IntoExtends(n, Put(Down(n).value, path[1..], s));
      UpdateExtends(t, path[0], Into(n, Put(Down(n).value, path[1..], s)));
    }
  }

  lemma {:induction false} OpenExtends(t: Table, path: seq<string>, inserted: bool)
    requires OpenTable(t, path, inserted).Success?
    ensures Extends(t, OpenTable(t, path, inserted).value)
    decreases path
  {
    hide Extends, NodeExtends;
    if path == [] {
      ExtendsSelf(t);
    } else if path[0] in t.entries {
      var n := t.entries[path[0]];
      OpenExtends(Down(n).value, path[1..], inserted);
      var s := OpenTable(Down(n).value, path[1..], inserted).value;
      IntoExtends(n, s);
      UpdateExtends(t, path[0], Into(n, s));
    } else {
      UpdateExtends(t, path[0], Sub(OpenTable(EMPTY, path[1..], true).value));
    }
  }

  lemma OneMore(ts: seq<Table>)
    ensures NodeExtends(Many(ts), Many(ts + [EMPTY]))
  {
    if ts != [] {
      ExtendsSelf(ts[|ts| - 1]);
      assert (ts + [EMPTY])[..|ts| - 1] == ts[..|ts| - 1];
    }
  }

  lemma {:induction false} AppendExtends(t: Table, path: seq<string>)
    requires path != [] && AppendTable(t, path).Success?
    ensures Extends(t, AppendTable(t, path).value)
    decreases path
  {
    hide Extends, NodeExtends;
    var k := path[0];
    if |path| == 1 {
      if k in t.entries {
        OneMore(t.entries[k].ts);
      }
      UpdateExtends(t, k, if k in t.entries then Many(t.entries[k].ts + [EMPTY]) else Many([EMPTY]));
    } else if k in t.entries {
      var n := t.entries[k];
      AppendExtends(Down(n).value, path[1..]);
      var s := AppendTable(Down(n).value, path[1..]).value;
      IntoExtends(n, s);
      UpdateExtends(t, k, Into(n, s));
    } else {
      UpdateExtends(t, k, Sub(AppendTable(EMPTY, path[1..]).value));
    }
  }

  lemma HeaderExtends(s: string, root: Table)
    requires Header(s, root).Success?
    ensures Extends(root, Header(s, root).value.root)
  {
    hide Extends, PathKeys, OpenTable, AppendTable, TomlTree.At;
    if s[0] == '[' {
      AppendExtends(root, PathKeys(s[1..]).value.0);
    } else {
      OpenExtends(root, PathKeys(s).value.0, false);
    }
  }

  lemma KeyValueExtends(s: string, lines: seq<string>, st: Reading)
    requires Valid(st) && KeyValue(s, lines, st).Success?
    ensures Extends(st.root, KeyValue(s, lines, st).value.0.root)
  {
    hide Extends, ParseKey, ParseValue, TomlTree.At, Put;
    var key := ParseKey(s, {'='}).value;
    var v := ParseValue(Place(SkipBlanks(key.1[1..]), lines)).value.0;
    UpdateExtends(Table(Current(st)), key.0, Leaf(v));
    PutExtends(st.root, st.cur, Table(Current(st)[key.0 := Leaf(v)]));
  }

  /** Whatever has been read is still there at the end, unchanged. */
  lemma {:induction false} ExecExtends(lines: seq<string>, st: Reading)
    requires Valid(st) && Exec(lines, st).Success?
    ensures Extends(st.root, Exec(lines, st).value.root)
    decreases |lines|
  {
    hide Extends, Header, KeyValue, SkipBlanks, TomlTree.At;
    if lines == [] {
      ExtendsSelf(st.root);
    } else {
      var s := SkipBlanks(lines[0]);
      if s == "" || s[0] == '#' {
        ExecExtends(lines[1..], st);
      } else if s[0] == '[' {
        var st' := Header(s[1..], st.root).value;
        HeaderExtends(s[1..], st.root);
        ExecExtends(lines[1..], st');
        ExtendsTwice(st.root, st'.root, Exec(lines[1..], st').value.root);
      } else {
        var next := KeyValue(s, lines[1..], st).value;
        KeyValueExtends(s, lines[1..], st);
        ExecExtends(next.1, next.0);
        ExtendsTwice(st.root, next.0.root, Exec(next.1, next.0).value.root);
      }
    }
  }

  // ---------------------------------------------------------------- nothing is defined twice

  /** No line is a header. */
  predicate NoHeaders(lines: seq<string>) {
    forall i :: 0 <= i < |lines| ==> var s := SkipBlanks(lines[i]); s == "" || s[0] != '['
  }

  lemma KeyStays(s: string, lines: seq<string>, st: Reading)
    requires Valid(st) && KeyValue(s, lines, st).Success?
    ensures var next := KeyValue(s, lines, st).value;
      && next.0.cur == st.cur && Current(st).Keys + {ParseKey(s, {'='}).value.0} <= Current(next.0).Keys
      && (NoHeaders(lines) ==> NoHeaders(next.1))
  {
    hide ParseKey, ParseValue, TomlTree.At, Put, SkipBlanks, NoHeaders;
    var key := ParseKey(s, {'='}).value;
    ValueProper(Place(SkipBlanks(key.1[1..]), lines));
    if NoHeaders(lines) {
      TailWithoutHeaders(KeyValue(s, lines, st).value.1, lines);
    }
  }

  lemma TailWithoutHeaders(a: seq<string>, b: seq<string>)
    requires IsTail(a, b) && NoHeaders(b)
    ensures NoHeaders(a)
  {
    hide SkipBlanks;
    assert forall i :: 0 <= i < |a| ==> a[i] == b[|b| - |a| + i];
  }

  /** Items add to the current table, and to no other. */
  lemma {:induction false} ItemsStay(lines: seq<string>, st: Reading)
    requires Valid(st) && NoHeaders(lines) && Exec(lines, st).Success?
    ensures var end := Exec(lines, st).value; end.cur == st.cur && Current(st).Keys <= Current(end).Keys
    decreases |lines|
  {
    hide KeyValue, Header, SkipBlanks, TomlTree.At, ParseKey;
    if lines != [] {
      var s := SkipBlanks(lines[0]);
      if s == "" || s[0] == '#' {
        ItemsStay(lines[1..], st);
      } else {
        assert s[0] != '[';
        var next := KeyValue(s, lines[1..], st).value;
        KeyStays(s, lines[1..], st);
        ItemsStay(next.1, next.0);
      }
    }
  }

  /** A key that has been read is refused when it comes again with any value, whatever items stand between. */
  lemma KeyOnce(s: string, lines: seq<string>, st: Reading, between: seq<string>, s': string, lines': seq<string>)
    requires Valid(st) && KeyValue(s, lines, st).Success?
    requires NoHeaders(between) && Exec(between, KeyValue(s, lines, st).value.0).Success?
    requires ParseKey(s', {'='}).Success? ==> ParseKey(s', {'='}).value.0 == ParseKey(s, {'='}).value.0
    ensures KeyValue(s', lines', Exec(between, KeyValue(s, lines, st).value.0).value) == Failure
  {
    hide ParseKey, ParseValue, TomlTree.At, Put, SkipBlanks, Exec, NoHeaders;
    KeyStays(s, lines, st);
    ItemsStay(between, KeyValue(s, lines, st).value.0);
  }

  lemma {:induction false} NewTableIsEmpty(t: Table, path: seq<string>, inserted: bool)
    requires TomlTree.At(t, path).None? && OpenTable(t, path, inserted).Success?
    ensures TomlTree.At(OpenTable(t, path, inserted).value, path) == Some(EMPTY)
    decreases path
  {
    if path[0] in t.entries {
      NewTableIsEmpty(Down(t.entries[path[0]]).value, path[1..], inserted);
    } else if TomlTree.At(EMPTY, path[1..]).None? {
      NewTableIsEmpty(EMPTY, path[1..], true);
    } else {
      assert path[1..] == [];
    }
  }

  /** A name that leads to a table leads there without a change. */
  lemma {:induction false} OpenKnown(t: Table, path: seq<string>)
    requires TomlTree.At(t, path).Some?
    ensures OpenTable(t, path, true) == Success(t)
    decreases path
  {
    if path != [] {
      var n := t.entries[path[0]];
      OpenKnown(Down(n).value, path[1..]);
      assert Into(n, Down(n).value) == n;
      assert t.entries[path[0] := n] == t.entries;
    }
  }

  /** A complete header whose table exists is refused exactly when that table is empty or has a scalar value by then;
      otherwise it makes the table current again. */
  lemma HeaderAgain(s: string, root: Table)
    requires s != "" && s[0] != ']' && PathKeys(s).Success? && LineEnds(PathKeys(s).value.1[1..])
    requires TomlTree.At(root, PathKeys(s).value.0).Some?
    ensures var path := PathKeys(s).value.0;
      TableHeader(s, root) == if Defined(TomlTree.At(root, path).value) then Failure else Success(Reading(root, path))
  {
    hide PathKeys, OpenTable, TomlTree.At, LineEnds, Defined;
    OpenChecked(root, PathKeys(s).value.0);
    OpenKnown(root, PathKeys(s).value.0);
  }

  /** A header that has created its table is refused when it is repeated at once. */
  lemma HeaderTwice(s: string, root: Table)
    requires TableHeader(s, root).Success? && TomlTree.At(root, PathKeys(s).value.0).None?
    ensures TableHeader(s, TableHeader(s, root).value.root) == Failure
  {
    hide PathKeys, OpenTable, TomlTree.At, LineEnds;
    NewTableIsEmpty(root, PathKeys(s).value.0, false);
    HeaderAgain(s, TableHeader(s, root).value.root);
  }

  /** Behind an array it is accepted again: `[a]`, `k = [1]`, `[a]`. */
  lemma HeaderRepeated()
    ensures var header, item := TomlPrinter.HeaderLines(["a"], false), TomlPrinter.ItemLine("k", Arr([Int(1)]), 0);
      && header == ["[a]"] && item == "k = [1]"
      && Exec(header + ([item] + header), Reading(EMPTY, []))
         == Success(Reading(Table(map["a" := Sub(Table(map["k" := Leaf(Arr([Int(1)]))]))]), ["a"]))
  {
    hide Exec, Put, TomlTree.At, OpenTable, TomlValues.SeenValue, TomlPrinter.HeaderLines, TomlPrinter.ItemLine;
    var v := Arr([Int(1)]);
    var header, item := TomlPrinter.HeaderLines(["a"], false), TomlPrinter.ItemLine("k", v, 0);
    HeaderAndItem();
    var st0, st1 := Reading(EMPTY, []), Reading(Table(map["a" := Sub(EMPTY)]), ["a"]);
    var st2 := Reading(Table(map["a" := Sub(Table(map["k" := Leaf(v)]))]), ["a"]);
    OneTable(EMPTY);
    OneTable(Table(map["k" := Leaf(v)]));
    ArrayIsNoScalar("k", v);
    TomlRoundTrip.HeaderLineReads(["a"], false, [item] + header, st0);
    TomlRoundTrip.ItemLineReads("k", v, 0, header, st1);
    assert header == header + [];
    TomlRoundTrip.HeaderLineReads(["a"], false, [], st2);
    OpenChecked(st2.root, ["a"]);
    OpenKnown(st2.root, ["a"]);
    TomlRoundTrip.ExecNothing(st2);
  }

  lemma HeaderAndItem()
    ensures TomlPrinter.HeaderLines(["a"], false) == ["[a]"]
    ensures TomlPrinter.ItemLine("k", Arr([Int(1)]), 0) == "k = [1]"
    ensures TomlValues.InRangeValue(Arr([Int(1)]))
    ensures TomlValues.SeenValue(Arr([Int(1)])) == Success(Arr([Int(1)]))
  {
    assert ["a"][1..] == [] && PathText([]) == "" && KeyText("a") == "a";
    assert "a" + "" + "" == "a" && PathText(["a"]) == "a";
    assert "" + ("[" + "a" + "]") == "[a]";
    assert KeyText("k") == "k" && IntText(1) == "1";
    assert [Int(1)][1..] == [] && TomlValues.ItemsText([Int(1)]) == "1";
    assert TomlValues.SeenItems([Int(1)][1..], KInt) == Success([]);
    assert [Int(1)] + [] == [Int(1)];
    assert TomlValues.SeenItems([Int(1)], KInt) == Success([Int(1)]);
  }

  /** The table under the name a, and how to replace it. */
  lemma OneTable(s: Table)
    ensures var t := Table(map["a" := Sub(s)]);
      && TomlTree.At(t, ["a"]) == Some(s)
      && OpenTable(EMPTY, ["a"], false) == Success(Table(map["a" := Sub(EMPTY)]))
      && TomlTree.At(EMPTY, []) == Some(EMPTY)
      && forall u :: Put(t, ["a"], u) == Table(map["a" := Sub(u)])
  {
    assert ["a"][1..] == [];
    assert EMPTY.entries["a" := Sub(EMPTY)] == map["a" := Sub(EMPTY)];
    forall u
      ensures Put(Table(map["a" := Sub(s)]), ["a"], u) == Table(map["a" := Sub(u)])
    {
      assert map["a" := Sub(s)]["a" := Sub(u)] == map["a" := Sub(u)];
    }
  }

  lemma ArrayIsNoScalar(k: string, v: Value)
    requires v.Arr?
    ensures !Defined(Table(map[k := Leaf(v)])) && EMPTY.entries[k := Leaf(v)] == map[k := Leaf(v)]
  {
    assert k in map[k := Leaf(v)];
  }
}
