/** A table of src/cpptoml.h together with the order in which its unordered map happens to be iterated, and what
    becomes of it when it is written and read. */
module TomlListing {
  import opened Wrappers
  import opened TomlText
  import opened TomlValues
  import opened TomlTree

  datatype Content = Plain(v: Value) | Inner(t: Listing) | Series(ts: seq<Listing>)

  datatype Entry = Entry(key: string, content: Content)

  datatype Listing = Listing(items: seq<Entry>)

  function Keys(items: seq<Entry>): set<string> {
    set i | 0 <= i < |items| :: items[i].key
  }

  lemma KeysSplit(items: seq<Entry>)
    requires items != []
    ensures Keys(items) == {items[0].key} + Keys(items[1..])
  {
    assert forall i :: 0 < i < |items| ==> items[i] == items[1..][i - 1];
    forall k | k in {items[0].key} + Keys(items[1..]) ensures k in Keys(items) {
      if k in Keys(items[1..]) {
        var i :| 0 <= i < |items[1..]| && items[1..][i].key == k;
        assert items[1 + i].key == k;
      } else {
        assert items[0].key == k;
      }
    }
  }

  // ---------------------------------------------------------------- the table without the order

  function Forget(t: Listing): Table {
    Table(ForgetItems(t.items))
  }

  function ForgetItems(items: seq<Entry>): (m: map<string, Node>)
    ensures m.Keys == Keys(items)
  {
    if items == [] then map[]
    else
      KeysSplit(items);
      map[items[0].key := ForgetContent(items[0].content)] + ForgetItems(items[1..])
  }

  function ForgetContent(c: Content): Node {
    match c
    case Plain(v) => Leaf(v)
    case Inner(t) => Sub(Forget(t))
    case Series(ts) => Many(ForgetSeries(ts))
  }

  function ForgetSeries(ts: seq<Listing>): (r: seq<Table>)
    ensures |r| == |ts|
  {
    if ts == [] then [] else [Forget(ts[0])] + ForgetSeries(ts[1..])
  }

  // ---------------------------------------------------------------- what is written and read

  /** What is asked of an entry: of its key, given the keys behind it, and of its content. */
  datatype Test = Test(key: (string, set<string>) -> bool, here: Content -> bool)

  /** The test holds of every entry at every level. */
  predicate Every(t: Listing, test: Test) {
    EveryItems(t.items, test)
  }

  predicate EveryItems(items: seq<Entry>, test: Test) {
    items != [] ==>
      && test.key(items[0].key, Keys(items[1..]))
      && EveryContent(items[0].content, test)
      && EveryItems(items[1..], test)
  }

  predicate EveryContent(c: Content, test: Test) {
    && test.here(c)
    && match c
       case Plain(_) => true
       case Inner(t) => Every(t, test)
       case Series(ts) => EverySeries(ts, test)
  }

  predicate EverySeries(ts: seq<Listing>, test: Test) {
    ts != [] ==> Every(ts[0], test) && EverySeries(ts[1..], test)
  }

  /** `both` asks for what `a` and `b` ask for. */
  ghost predicate Joins(a: Test, b: Test, both: Test) {
    && (forall k: string, later: set<string> :: both.key(k, later) <==> a.key(k, later) && b.key(k, later))
    && (forall c: Content :: both.here(c) <==> a.here(c) && b.here(c))
  }

  lemma {:induction false} EveryBoth(t: Listing, a: Test, b: Test, both: Test)
    requires Joins(a, b, both)
    ensures Every(t, both) <==> Every(t, a) && Every(t, b)
    decreases t
  {
    ItemsBoth(t.items, a, b, both);
  }

  lemma {:induction false} ItemsBoth(items: seq<Entry>, a: Test, b: Test, both: Test)
    requires Joins(a, b, both)
    ensures EveryItems(items, both) <==> EveryItems(items, a) && EveryItems(items, b)
    decreases items
  {
    hide Keys;
    if items != [] {
      ItemsBoth(items[1..], a, b, both);
      match items[0].content
      case Plain(_) =>
      case Inner(t) => EveryBoth(t, a, b, both);
      case Series(ts) => SeriesBoth(ts, a, b, both);
    }
  }

  lemma {:induction false} SeriesBoth(ts: seq<Listing>, a: Test, b: Test, both: Test)
    requires Joins(a, b, both)
    ensures EverySeries(ts, both) <==> EverySeries(ts, a) && EverySeries(ts, b)
    decreases ts
  {
    hide Joins;
    if ts != [] {
      EveryBoth(ts[0], a, b, both);
      SeriesBoth(ts[1..], a, b, both);
    }
  }

  const DISTINCT := Test((k, later) => k !in later, c => true)

  const NAMED := Test((k, later) => k != "", c => true)

  const SOUND := Test((k, later) => k !in later, (c: Content) => c.Plain? ==> InRangeValue(c.v))

  const WRITABLE := Test((k, later) => k != "" && k !in later, (c: Content) => c.Plain? ==> InRangeValue(c.v))

  /** Distinct keys at every level, as in any order in which a table can be iterated. */
  predicate Distinct(t: Listing) {
    Every(t, DISTINCT)
  }

  /** No key is empty. */
  predicate Named(t: Listing) {
    Every(t, NAMED)
  }

  /** Distinct keys; numbers and dates in range. */
  predicate Sound(t: Listing) {
    Every(t, SOUND)
  }

  /** Distinct non-empty keys; numbers and dates in range. */
  predicate Writable(t: Listing) {
    Every(t, WRITABLE)
  }

  lemma WritableIs(t: Listing)
    ensures Writable(t) <==> Sound(t) && Named(t)
  {
    EveryBoth(t, SOUND, NAMED, WRITABLE);
  }

  lemma SoundIsDistinct(t: Listing)
    requires Sound(t)
    ensures Distinct(t)
  {
    EveryBoth(t, SOUND, DISTINCT, SOUND);
  }

  /** The table that is read from what is written: every value as it is seen, and no empty arrays of tables. */
  function Seen(t: Listing): Result<Table> {
    var m :- SeenEntries(t.items);
    Success(Table(m))
  }

  function SeenEntries(items: seq<Entry>): (r: Result<map<string, Node>>)
    ensures r.Success? ==> r.value.Keys <= Keys(items)
  {
    if items == [] then Success(map[])
    else
      KeysSplit(items);
      var n :- SeenContent(items[0].content);
      var m :- SeenEntries(items[1..]);
      Success(Kept(items[0].key, n) + m)
  }

  /** An empty array of tables leaves no trace. */
  function Kept(k: string, n: Node): map<string, Node> {
    if n.Many? && n.ts == [] then map[] else map[k := n]
  }

  function SeenContent(c: Content): Result<Node> {
    match c
    case Plain(v) => var w :- SeenValue(v); Success(Leaf(w))
    case Inner(t) => var s :- Seen(t); Success(Sub(s))
    case Series(ts) => var ss :- SeenSeries(ts); Success(Many(ss))
  }

  function SeenSeries(ts: seq<Listing>): (r: Result<seq<Table>>)
    ensures r.Success? ==> |r.value| == |ts|
  {
    if ts == [] then Success([])
    else
      var s :- Seen(ts[0]);
      var ss :- SeenSeries(ts[1..]);
      Success([s] + ss)
  }

  // ---------------------------------------------------------------- when nothing is lost

  const READABLE := Test((k, later) => true, (c: Content) => (c.Plain? ==> ReadableValue(c.v)) && c != Series([]))

  /** Readable values only, and no empty array of tables. */
  predicate Readable(t: Listing) {
    Every(t, READABLE)
  }

  /** Nothing is lost exactly when the listing is readable. */
  lemma {:induction false} SeenIsForgotten(t: Listing)
    requires Writable(t)
    ensures Seen(t) == Success(Forget(t)) <==> Readable(t)
    decreases t
  {
    ItemsForgotten(t.items);
  }

  lemma {:induction false} ItemsForgotten(items: seq<Entry>)
    requires EveryItems(items, WRITABLE)
    ensures SeenEntries(items) == Success(ForgetItems(items)) <==> EveryItems(items, READABLE)
    decreases items
  {
    hide SeenContent, ForgetContent, EveryContent, Keys, Kept;
    if items != [] {
      ItemsForgotten(items[1..]);
      ContentForgotten(items[0].content);
      var n := SeenContent(items[0].content);
      var m := SeenEntries(items[1..]);
      if n.Success? && m.Success? {
        Separate(items[0].key, n.value, m.value, ForgetContent(items[0].content), ForgetItems(items[1..]));
      }
    }
  }

  lemma Separate(k: string, n: Node, m: map<string, Node>, c: Node, f: map<string, Node>)
    requires k !in m && k !in f
    ensures Kept(k, n) + m == map[k := c] + f <==> n == c && !(c.Many? && c.ts == []) && m == f
  {
    var left, right := Kept(k, n) + m, map[k := c] + f;
    assert k in right;
    assert left - {k} == m && right - {k} == f;
  }

  lemma {:induction false} ContentForgotten(c: Content)
    requires EveryContent(c, WRITABLE)
    ensures SeenContent(c) == Success(ForgetContent(c)) && !(c.Series? && c.ts == []) <==> EveryContent(c, READABLE)
    ensures var n := ForgetContent(c); n.Many? && n.ts == [] <==> c.Series? && c.ts == []
    decreases c
  {
    match c
    case Plain(v) => SeenIsSame(v);
    case Inner(t) => SeenIsForgotten(t);
    case Series(ts) => SeriesForgotten(ts);
  }

  lemma {:induction false} SeriesForgotten(ts: seq<Listing>)
    requires EverySeries(ts, WRITABLE)
    ensures SeenSeries(ts) == Success(ForgetSeries(ts)) <==> EverySeries(ts, READABLE)
    decreases ts
  {
    hide Seen, Forget, Every;
    if ts != [] {
      SeenIsForgotten(ts[0]);
      SeriesForgotten(ts[1..]);
      var s, ss := Seen(ts[0]), SeenSeries(ts[1..]);
      if s.Success? && ss.Success? {
        assert ([s.value] + ss.value)[1..] == ss.value;
        assert ([Forget(ts[0])] + ForgetSeries(ts[1..]))[1..] == ForgetSeries(ts[1..]);
        assert ([s.value] + ss.value)[0] == s.value;
        assert ([Forget(ts[0])] + ForgetSeries(ts[1..]))[0] == Forget(ts[0]);
      }
    }
  }

  // ---------------------------------------------------------------- the order does not matter

  lemma {:induction false} ForgetLookup(items: seq<Entry>, j: nat)
    requires EveryItems(items, WRITABLE) && j < |items|
    ensures items[j].key in ForgetItems(items)
    ensures ForgetItems(items)[items[j].key] == ForgetContent(items[j].content)
    ensures EveryContent(items[j].content, WRITABLE)
  {
    hide ForgetContent, EveryContent;
    if j > 0 {
      ForgetLookup(items[1..], j - 1);
      KeysSplit(items);
      assert items[1..][j - 1] == items[j];
      assert items[j].key in Keys(items[1..]);
    }
  }

  predicate Dropped(n: Node) {
    n.Many? && n.ts == []
  }

  /** What is read under each key. */
  lemma {:induction false} SeenLookup(items: seq<Entry>)
    requires EveryItems(items, WRITABLE)
    ensures SeenEntries(items).Success? <==> forall j :: 0 <= j < |items| ==> SeenContent(items[j].content).Success?
    ensures SeenEntries(items).Success? ==> forall j :: 0 <= j < |items| ==>
              var n := SeenContent(items[j].content).value;
              if Dropped(n) then items[j].key !in SeenEntries(items).value
              else items[j].key in SeenEntries(items).value && SeenEntries(items).value[items[j].key] == n
  {
    hide SeenContent, EveryContent;
    if items != [] {
      SeenLookup(items[1..]);
      assert forall j :: 0 < j < |items| ==> items[j] == items[1..][j - 1] && items[j].key in Keys(items[1..]);
    }
  }

  /** Two entries that are read as the same. */
  predicate SameEntry(e: Entry, f: Entry) {
    e.key == f.key && SeenContent(e.content) == SeenContent(f.content)
  }

  predicate Matched(a: seq<Entry>, b: seq<Entry>) {
    forall j :: 0 <= j < |a| ==> HasMatch(a[j], b)
  }

  predicate HasMatch(e: Entry, b: seq<Entry>) {
    exists i :: 0 <= i < |b| && SameEntry(e, b[i])
  }

  lemma SameSuccess(a: seq<Entry>, b: seq<Entry>)
    requires EveryItems(a, WRITABLE) && EveryItems(b, WRITABLE) && Matched(a, b) && SeenEntries(b).Success?
    ensures SeenEntries(a).Success?
  {
    hide SeenContent, EveryItems, SeenEntries, Dropped;
    SeenLookup(a);
    SeenLookup(b);
    forall j | 0 <= j < |a| ensures SeenContent(a[j].content).Success? {
      var i := MatchOf(a, b, j);
    }
  }

  lemma SameUnderKey(a: seq<Entry>, b: seq<Entry>, k: string)
    requires EveryItems(a, WRITABLE) && EveryItems(b, WRITABLE) && Matched(a, b) && k in Keys(a)
    requires SeenEntries(a).Success? && SeenEntries(b).Success?
    ensures var m, n := SeenEntries(a).value, SeenEntries(b).value;
      (k in m <==> k in n) && (k in m ==> m[k] == n[k])
  {
    hide SeenContent, EveryItems, SeenEntries, Dropped, Matched;
    SeenLookup(a);
    SeenLookup(b);
    var j :| 0 <= j < |a| && a[j].key == k;
    var i := MatchOf(a, b, j);
  }

  lemma MatchOf(a: seq<Entry>, b: seq<Entry>, j: nat) returns (i: nat)
    requires Matched(a, b) && j < |a|
    ensures i < |b| && SameEntry(a[j], b[i])
  {
    assert HasMatch(a[j], b);
    i :| 0 <= i < |b| && SameEntry(a[j], b[i]);
  }

  lemma SameMaps(a: seq<Entry>, b: seq<Entry>)
    requires EveryItems(a, WRITABLE) && EveryItems(b, WRITABLE) && Matched(a, b) && Matched(b, a) && Keys(a) == Keys(b)
    ensures SeenEntries(a) == SeenEntries(b)
  {
    hide SeenContent, EveryItems, SeenEntries, Matched, Keys;
    if SeenEntries(a).Success? || SeenEntries(b).Success? {
      if SeenEntries(b).Success? {
        SameSuccess(a, b);
      } else {
        SameSuccess(b, a);
      }
      var m, n := SeenEntries(a).value, SeenEntries(b).value;
      forall k | k in Keys(a) ensures (k in m <==> k in n) && (k in m ==> m[k] == n[k]) {
        SameUnderKey(a, b, k);
      }
      assert m.Keys == n.Keys;
      assert m == n;
    }
  }

  /** What is read depends on the table only, not on the order of its entries. */
  lemma {:induction false} SameItems(a: seq<Entry>, b: seq<Entry>)
    requires EveryItems(a, WRITABLE) && EveryItems(b, WRITABLE) && ForgetItems(a) == ForgetItems(b)
    ensures SeenEntries(a) == SeenEntries(b)
    decreases a, 1
  {
    hide EveryItems, ForgetItems, SeenEntries, SameEntry;
    assert Keys(a) == Keys(b);
    assert Matched(a, b) by {
      forall j | 0 <= j < |a| ensures HasMatch(a[j], b) {
        assert a[j].key in Keys(b);
        var i :| 0 <= i < |b| && b[i].key == a[j].key;
        EntryMatches(a, b, j, i);
      }
    }
    assert Matched(b, a) by {
      forall i | 0 <= i < |b| ensures HasMatch(b[i], a) {
        assert b[i].key in Keys(a);
        var j :| 0 <= j < |a| && a[j].key == b[i].key;
        EntryMatches(a, b, j, i);
      }
    }
    SameMaps(a, b);
  }

  lemma {:induction false} EntryMatches(a: seq<Entry>, b: seq<Entry>, j: nat, i: nat)
    requires EveryItems(a, WRITABLE) && EveryItems(b, WRITABLE) && ForgetItems(a) == ForgetItems(b)
    requires j < |a| && i < |b| && a[j].key == b[i].key
    ensures SameEntry(a[j], b[i]) && SameEntry(b[i], a[j])
    decreases a, 0
  {
    hide SeenContent, EveryItems, ForgetItems, ForgetContent;
    ForgetLookup(a, j);
    ForgetLookup(b, i);
    SameContent(a[j].content, b[i].content);
  }

  lemma {:induction false} SameContent(c: Content, d: Content)
    requires EveryContent(c, WRITABLE) && EveryContent(d, WRITABLE) && ForgetContent(c) == ForgetContent(d)
    ensures SeenContent(c) == SeenContent(d)
    decreases c
  {
    match c
    case Plain(_) =>
    case Inner(t) => SameItems(t.items, d.t.items);
    case Series(ts) => SameSeries(ts, d.ts);
  }

  lemma {:induction false} SameSeries(ts: seq<Listing>, us: seq<Listing>)
    requires EverySeries(ts, WRITABLE) && EverySeries(us, WRITABLE) && ForgetSeries(ts) == ForgetSeries(us)
    ensures SeenSeries(ts) == SeenSeries(us)
    decreases ts
  {
    hide SeenEntries, ForgetItems, EveryItems;
    if ts != [] {
      var f, g := ForgetSeries(ts), ForgetSeries(us);
      assert f[0] == Forget(ts[0]) && g[0] == Forget(us[0]);
      assert f[1..] == ForgetSeries(ts[1..]) && g[1..] == ForgetSeries(us[1..]);
      SameItems(ts[0].items, us[0].items);
      SameSeries(ts[1..], us[1..]);
    }
  }
}
