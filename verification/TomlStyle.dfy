/** The one spelling, of all those that are read alike, in which src/cpptoml.h writes a table. */
module TomlStyle {
  import opened Wrappers
  import opened Decimal
  import opened TomlDates
  import opened TomlText
  import opened TomlKeys
  import opened TomlListing
  import opened TomlPrinter
  import opened TomlSpelling
  import opened TomlSpelledTexts
  import opened TomlCommented

  predicate HasTabs(s: string, n: nat) {
    |s| == n && forall i :: 0 <= i < n ==> s[i] == '\t'
  }

  /** A key stands in quotes only if it has characters other than letters, digits, underscores and dashes. */
  predicate StyledKey(key: Key) {
    key.Plain? <==> forall i :: 0 <= i < |Name(key)| ==>
      var c := Name(key)[i]; 'a' <= c <= 'z' || 'A' <= c <= 'Z' || '0' <= c <= '9' || c == '_' || c == '-'
  }

  predicate StyledParts(parts: seq<Part>) {
    parts != [] ==>
      && StyledKey(parts[0].key) && parts[0].behind == parts[0].gap == "" && (parts[0].dot <==> |parts| > 1)
      && StyledParts(parts[1..])
  }

  /** Backslashes, quotes and ends of lines are escaped, and nothing else is. */
  predicate StyledChars(chars: seq<Char>) {
    forall i :: 0 <= i < |chars| ==>
      match chars[i] case Raw(c) => c !in {'\\', '\"', '\n'} case Code(code) => code in {'\\', '\"', 'n'}
  }

  /** Strings in double quotes with as few escapes as can be, numbers without separators, six digits of a fraction that
      is not zero, Z for no offset, and arrays on one line with a blank behind every comma. */
  predicate StyledValue(v: Spelled) {
    match v
    case Basic(chars) => StyledChars(chars)
    case Literal(_) => false
    case Number(sign, groups) => sign in {"", "-"} && |groups| == 1
    case Truth(_) => true
    case Moment(_, fraction, zone) =>
      && (fraction.Some? ==> |fraction.value| >= 6 && AllDigits(fraction.value) && Natural(fraction.value) > 0)
      && (zone.Offset? ==> zone.hours != 0 || zone.minutes != 0)
    case Listed(open, items) => open == Gap([], "") && StyledItems(items)
  }

  predicate StyledItems(items: Items) {
    match items
    case Done => true
    case Final(v, before, closer) => StyledValue(v) && before == Gap([], "") && closer == ']'
    case More(v, before, behind, rest) =>
      StyledValue(v) && before == Gap([], "") && behind == Gap([], " ") && !rest.Done? && StyledItems(rest)
  }

  /** A line in a table that is `depth` deep: items are indented by as many tabs, and a name by one less than its
      components. */
  predicate StyledLine(line: Line, depth: nat) {
    match line
    case Idle(text) => text == ""
    case TableName(indent, lead, parts, tail) =>
      parts != [] && HasTabs(indent, |parts| - 1) && lead == tail == "" && StyledParts(parts)
    case SeriesName(indent, lead, parts, second, tail) =>
      parts != [] && HasTabs(indent, |parts| - 1) && lead == tail == "" && second == ']' && StyledParts(parts)
    case Item(indent, key, before, behind, value, tail) =>
      HasTabs(indent, depth) && StyledKey(key) && before == behind == " " && StyledValue(value) && tail == ""
  }

  function DepthBehind(line: Line, depth: nat): nat {
    if line.TableName? || line.SeriesName? then |line.parts| else depth
  }

  predicate Styled(doc: seq<Line>, depth: nat) {
    doc != [] ==> StyledLine(doc[0], depth) && Styled(doc[1..], DepthBehind(doc[0], depth))
  }

  // ---------------------------------------------------------------- it is what is written

  lemma {:induction false} TabsAre(n: nat)
    ensures HasTabs(Tabs(n), n)
  {
    if n > 0 {
      TabsAre(n - 1);
    }
  }

  lemma KeyIsStyled(k: string)
    ensures StyledKey(TomlCommented.KeyOf(k)) && Name(TomlCommented.KeyOf(k)) == k
  {
    hide CharsMean;
    KeyOfText(k);
    assert IsBare(k) <==> forall i :: 0 <= i < |k| ==> IsBareChar(k[i]);
  }

  lemma {:induction false} PartsAreStyled(path: seq<string>)
    ensures StyledParts(TomlCommented.PartsOf(path)) && |TomlCommented.PartsOf(path)| == |path|
  {
    hide StyledKey, TomlCommented.KeyOf;
    if path != [] {
      PartsAreStyled(path[1..]);
      KeyIsStyled(path[0]);
      var parts := TomlCommented.PartsOf(path);
      assert parts[1..] == TomlCommented.PartsOf(path[1..]);
      assert parts[0] == Part(TomlCommented.KeyOf(path[0]), "", |path| > 1, "");
    }
  }

  lemma {:induction false} CharsAreStyled(s: string)
    ensures StyledChars(TomlCommented.CharsOf(s))
  {
    if s != "" {
      CharsAreStyled(s[1..]);
      var chars := TomlCommented.CharsOf(s);
      assert chars[1..] == TomlCommented.CharsOf(s[1..]);
      assert forall i :: 0 < i < |chars| ==> chars[i] == chars[1..][i - 1];
    }
  }

  lemma FractionIsStyled(n: nat)
    requires n > 0
    ensures var f := Padded(n, 6); |f| >= 6 && AllDigits(f) && Natural(f) == n
  {
    FractionDigits(n);
  }

  lemma ZoneIsStyled(d: DateTime)
    ensures var zone := TomlCommented.ZoneOf(d); zone.Offset? ==> zone.hours != 0 || zone.minutes != 0
  {
  }

  lemma {:induction false} ValueIsStyled(v: Value)
    ensures StyledValue(SpelledOf(v))
    decreases v, 1
  {
    hide Padded, Dec, Natural, TomlCommented.ItemsOf;
    match v
    case Str(s) => CharsAreStyled(s);
    case Int(_) =>
    case Bool(_) =>
    case Date(d) =>
      if d.microsecond > 0 {
        FractionIsStyled(d.microsecond);
      }
      ZoneIsStyled(d);
    case Arr(vs) => ItemsAreStyled(vs);
  }

  lemma {:induction false} ItemsAreStyled(vs: seq<Value>)
    ensures StyledItems(TomlCommented.ItemsOf(vs))
    decreases vs, 0
  {
    hide StyledValue, SpelledOf;
    if vs != [] {
      ValueIsStyled(vs[0]);
      ItemsAreStyled(vs[1..]);
    }
  }

  function DepthAfter(doc: seq<Line>, depth: nat): nat {
    if doc == [] then depth else DepthAfter(doc[1..], DepthBehind(doc[0], depth))
  }

  lemma {:induction false} StyledAppend(a: seq<Line>, b: seq<Line>, depth: nat)
    requires Styled(a, depth) && Styled(b, DepthAfter(a, depth))
    ensures Styled(a + b, depth)
  {
    hide StyledLine;
    if a == [] {
      assert a + b == b;
    } else {
      assert (a + b)[1..] == a[1..] + b;
      StyledAppend(a[1..], b, DepthBehind(a[0], depth));
    }
  }

  lemma {:induction false} ValuesAreStyled(items: seq<Entry>, depth: nat)
    ensures Styled(ValuesOf(items, depth), depth) && DepthAfter(ValuesOf(items, depth), depth) == depth
  {
    hide StyledKey, StyledValue, HasTabs, TomlCommented.KeyOf, SpelledOf;
    if items != [] {
      ValuesAreStyled(items[1..], depth);
      var more := ValuesOf(items[1..], depth);
      if items[0].content.Plain? {
        var line := TomlCommented.ItemOf(items[0].key, items[0].content.v, depth);
        TabsAre(depth);
        KeyIsStyled(items[0].key);
        ValueIsStyled(items[0].content.v);
        assert ([line] + more)[1..] == more;
      } else {
        assert [] + more == more;
      }
    }
  }

  lemma HeaderIsStyled(path: seq<string>, inArray: bool, depth: nat)
    requires path == [] ==> depth == 0
    ensures var doc := TomlCommented.HeaderOf(path, inArray); Styled(doc, depth) && DepthAfter(doc, depth) == |path|
  {
    hide StyledParts, HasTabs, TomlCommented.PartsOf;
    if path != [] {
      PartsAreStyled(path);
      TabsAre(|path| - 1);
      var doc := TomlCommented.HeaderOf(path, inArray);
      assert doc[1..] == [];
    }
  }

  lemma {:induction false} TableIsStyled(t: Listing, path: seq<string>, inArray: bool, depth: nat)
    requires path == [] ==> depth == 0
    ensures Styled(TableOf(t, path, inArray), depth)
    decreases t, 1
  {
    hide Styled, DepthAfter, TomlCommented.HeaderOf, ValuesOf, SubsOf;
    HeaderIsStyled(path, inArray, depth);
    ValuesAreStyled(t.items, |path|);
    SubsAreStyled(t.items, path, |path|);
    StyledAppend(ValuesOf(t.items, |path|), SubsOf(t.items, path), |path|);
    StyledAppend(TomlCommented.HeaderOf(path, inArray), ValuesOf(t.items, |path|) + SubsOf(t.items, path), depth);
  }

  lemma {:induction false} SubsAreStyled(items: seq<Entry>, path: seq<string>, depth: nat)
    ensures Styled(SubsOf(items, path), depth)
    decreases items, 0
  {
    hide StyledLine, TableOf, SeriesOf, DepthAfter;
    if items != [] {
      var first := ContentOf(items[0].content, path + [items[0].key]);
      SubsAreStyled(items[1..], path, DepthAfter(first, depth));
      match items[0].content {
        case Plain(_) =>
        case Inner(t) => TableIsStyled(t, path + [items[0].key], false, depth);
        case Series(ts) => SeriesIsStyled(ts, path + [items[0].key], depth);
      }
      StyledAppend(first, SubsOf(items[1..], path), depth);
    }
  }

  lemma {:induction false} SeriesIsStyled(ts: seq<Listing>, path: seq<string>, depth: nat)
    requires path != []
    ensures Styled(SeriesOf(ts, path), depth)
    decreases ts, 0
  {
    hide StyledLine, TableOf, DepthAfter;
    if ts != [] {
      TableIsStyled(ts[0], path, true, depth);
      SeriesIsStyled(ts[1..], path, DepthAfter(TableOf(ts[0], path, true), depth));
      StyledAppend(TableOf(ts[0], path, true), SeriesOf(ts[1..], path), depth);
    }
  }

  /** A written document is in this style, behind an empty line if it begins with no item and no table. */
  lemma WrittenStyle(t: Listing)
    ensures var doc := TableOf(t, [], false);
            && AllWrite((if StartsEmpty(t) then [Idle("")] else []) + doc, DocumentLines(t))
            && Styled(doc, 0)
  {
    hide TableOf, DocumentLines, Styled, AllWrite;
    DocumentWrites(t);
    TableIsStyled(t, [], false, 0);
  }
}
