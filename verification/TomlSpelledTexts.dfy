/** Whole texts as users spell them for src/cpptoml.h. */
module TomlSpelledTexts {
  import opened Wrappers
  import opened TomlText
  import opened TomlKeys
  import opened TomlTree
  import opened TomlReader
  import opened TomlComments
  import opened TomlSpelling
  import opened TomlSpelledArrays
  import TomlRoundTrip
  import TomlPrinter

  // ---------------------------------------------------------------- spellings

  datatype Key = Plain(name: string) | Quotes(chars: seq<Char>)

  /** A component of a table's name, the blanks behind it, and a dot and the blanks behind that. */
  datatype Part = Part(key: Key, behind: string, dot: bool, gap: string)

  /** A line that says nothing, the name of a table or of an array of tables between brackets, or an item, whose value
      may go on over several lines; each with what stands behind it. */
  datatype Line =
    | Idle(text: string)
    | TableName(indent: string, lead: string, parts: seq<Part>, tail: string)
    | SeriesName(indent: string, lead: string, parts: seq<Part>, second: char, tail: string)
    | Item(indent: string, key: Key, before: string, behind: string, value: Spelled, tail: string)

  function KeySpelled(key: Key): string {
    match key
    case Plain(name) => name
    case Quotes(chars) => "\"" + (CharsText(chars) + "\"")
  }

  function PartText(part: Part): string {
    KeySpelled(part.key) + (part.behind + (if part.dot then "." + part.gap else ""))
  }

  function PartsText(parts: seq<Part>): string {
    if parts == [] then "" else PartText(parts[0]) + PartsText(parts[1..])
  }

  /** The lines of a text, the values of its items spread over as many as they take. */
  function TextLines(doc: seq<Line>): seq<string> {
    if doc == [] then []
    else
      var more := TextLines(doc[1..]);
      match doc[0]
      case Idle(text) => [text] + more
      case TableName(indent, lead, parts, tail) => [indent + ("[" + (lead + (PartsText(parts) + ("]" + tail))))] + more
      case SeriesName(indent, lead, parts, second, tail) =>
        [indent + ("[[" + (lead + (PartsText(parts) + ("]" + ([second] + tail)))))] + more
      case Item(indent, key, before, behind, value, tail) =>
        var p := Spell(value, Place(tail, more));
        [indent + (KeySpelled(key) + (before + ("=" + (behind + p.text))))] + p.lines
  }

  // ---------------------------------------------------------------- which of them are well formed

  predicate IsKey(key: Key, stops: set<char>) {
    match key
    case Plain(name) =>
      && name != "" && name[0] != '\"'
      && forall i :: 0 <= i < |name| ==> name[i] !in stops && !IsBlank(name[i]) && name[i] !in {'#', '[', ']'}
    case Quotes(chars) => AreChars(chars)
  }

  predicate IsPart(part: Part) {
    && AreBlanks(part.behind) && AreBlanks(part.gap) && IsKey(part.key, {'.', ']'}) && Name(part.key) != ""
    && (!part.dot ==> part.gap == "")
  }

  /** Between two components there is a dot, which may be left out behind a key in quotes; there may be one behind the
      last component too. */
  predicate AreParts(parts: seq<Part>) {
    && parts != []
    && (forall i :: 0 <= i < |parts| ==> IsPart(parts[i]))
    && (forall i :: 0 <= i < |parts| - 1 ==> parts[i].dot || parts[i].key.Quotes?)
  }

  /** Well formed where the lines `more` follow. Whatever character stands behind the first closing bracket of the name
      of an array of tables. */
  predicate IsLine(line: Line, more: seq<string>) {
    match line
    case Idle(text) => IsIdle(text)
    case TableName(indent, lead, parts, tail) => AreBlanks(indent) && AreBlanks(lead) && AreParts(parts) && IsIdle(tail)
    case SeriesName(indent, lead, parts, _, tail) =>
      AreBlanks(indent) && AreBlanks(lead) && AreParts(parts) && IsIdle(tail)
    case Item(indent, key, before, behind, value, tail) =>
      && AreBlanks(indent) && AreBlanks(before) && AreBlanks(behind)
      && IsKey(key, {'='}) && Fits(value, Place(tail, more)) && IsIdle(tail)
  }

  predicate AreLines(doc: seq<Line>) {
    doc != [] ==> IsLine(doc[0], TextLines(doc[1..])) && AreLines(doc[1..])
  }

  // ---------------------------------------------------------------- what they mean

  function Name(key: Key): string {
    match key
    case Plain(name) => name
    case Quotes(chars) => CharsMean(chars)
  }

  function Names(parts: seq<Part>): (names: seq<string>)
    ensures |names| == |parts|
  {
    if parts == [] then [] else [Name(parts[0].key)] + Names(parts[1..])
  }

  /** A table's name opens it, the name of an array appends a table to it, and an item is inserted unless its key is
      there already. */
  function Does(line: Line, st: Reading): (r: Result<Reading>)
    requires Valid(st)
    ensures r.Success? ==> Valid(r.value)
  {
    match line
    case Idle(_) => Success(st)
    case TableName(_, _, parts, _) =>
      var t :- OpenTable(st.root, Names(parts), false);
      Success(Reading(t, Names(parts)))
    case SeriesName(_, _, parts, _, _) =>
      if parts == [] then Failure
      else
        var t :- AppendTable(st.root, Names(parts));
        Success(Reading(t, Names(parts)))
    case Item(_, key, _, _, value, _) =>
      if Name(key) in Current(st) then Failure else Success(Insert(st, Name(key), Means(value)))
  }

  function DoesAll(doc: seq<Line>, st: Reading): (r: Result<Reading>)
    requires Valid(st)
    ensures r.Success? ==> Valid(r.value)
  {
    if doc == [] then Success(st)
    else
      var next :- Does(doc[0], st);
      DoesAll(doc[1..], next)
  }

  // ---------------------------------------------------------------- keys

  lemma {:induction false} UntilStop(name: string, blanks: string, tail: string, stops: set<char>)
    requires (forall i :: 0 <= i < |name| ==> name[i] !in stops) && AreBlanks(blanks)
    requires tail != "" && tail[0] in stops && ' ' !in stops && '\t' !in stops
    ensures Until(name + (blanks + tail), stops) == |name| + |blanks|
  {
    assert forall i :: 0 <= i < |blanks| ==> IsBlank(blanks[i]);
    assert forall i :: 0 <= i < |name + blanks| ==> (name + blanks)[i] !in stops;
    UntilIs(name + blanks, tail, stops);
    assert (name + blanks) + tail == name + (blanks + tail);
  }

  lemma {:induction false} Trimmed(name: string, blanks: string)
    requires name != "" && !IsBlank(name[|name| - 1]) && AreBlanks(blanks)
    ensures TrimEnd(name + blanks) == name
    decreases |blanks|
  {
    var s := name + blanks;
    if blanks == "" {
      assert s == name;
    } else {
      assert s[..|s| - 1] == name + blanks[..|blanks| - 1];
      assert IsBlank(s[|s| - 1]);
      Trimmed(name, blanks[..|blanks| - 1]);
    }
  }

  lemma PlainReads(name: string, blanks: string, tail: string, stops: set<char>)
    requires IsKey(Plain(name), stops) && AreBlanks(blanks)
    requires tail != "" && tail[0] in stops && ' ' !in stops && '\t' !in stops
    ensures ParseKey(name + (blanks + tail), stops) == Success((name, tail))
  {
    hide Until, TrimEnd;
    var text := name + (blanks + tail);
    assert text[0] == name[0];
    assert SkipBlanks(text) == text;
    UntilStop(name, blanks, tail, stops);
    var n := |name| + |blanks|;
    assert text[..n] == name + blanks && text[n..] == tail;
    assert !IsBlank(name[|name| - 1]);
    Trimmed(name, blanks);
  }

  lemma QuotesRead(chars: seq<Char>, blanks: string, tail: string, stops: set<char>)
    requires AreChars(chars) && AreBlanks(blanks) && tail != "" && !IsBlank(tail[0])
    ensures ParseKey(KeySpelled(Quotes(chars)) + (blanks + tail), stops) == Success((CharsMean(chars), tail))
  {
    hide LiteralBody, CharsText;
    var rest := blanks + tail;
    var text := KeySpelled(Quotes(chars)) + rest;
    assert text[0] == '\"' && text[1..] == CharsText(chars) + ("\"" + rest);
    assert SkipBlanks(text) == text;
    CharsRead(chars, rest, "");
    BlanksSkipped(blanks, tail);
    assert SkipBlanks(tail) == tail && "" + CharsMean(chars) == CharsMean(chars);
  }

  /** A key is read up to what stops it, blanks behind it left out. */
  lemma KeyRead(key: Key, blanks: string, tail: string, stops: set<char>)
    requires IsKey(key, stops) && AreBlanks(blanks)
    requires tail != "" && tail[0] in stops && !IsBlank(tail[0]) && ' ' !in stops && '\t' !in stops
    ensures ParseKey(KeySpelled(key) + (blanks + tail), stops) == Success((Name(key), tail))
  {
    hide ParseKey, CharsText, CharsMean;
    match key
    case Plain(name) => PlainReads(name, blanks, tail, stops);
    case Quotes(chars) => QuotesRead(chars, blanks, tail, stops);
  }

  // ---------------------------------------------------------------- names of tables

  lemma PartsAre(parts: seq<Part>)
    requires AreParts(parts)
    ensures parts != [] && IsPart(parts[0])
    ensures |parts| > 1 ==> AreParts(parts[1..]) && (parts[0].dot || parts[0].key.Quotes?)
  {
    hide IsPart;
  }

  /** What stands behind the key and the blanks of the first component. */
  function BehindKey(parts: seq<Part>, tail: string): string
    requires parts != []
  {
    (if parts[0].dot then "." + parts[0].gap else "") + (PartsText(parts[1..]) + tail)
  }

  lemma PartsUnfold(parts: seq<Part>, tail: string)
    requires parts != []
    ensures PartsText(parts) + tail == KeySpelled(parts[0].key) + (parts[0].behind + BehindKey(parts, tail))
  {
    hide KeySpelled;
    FourJoined(KeySpelled(parts[0].key), parts[0].behind, if parts[0].dot then "." + parts[0].gap else "",
               PartsText(parts[1..]), tail);
  }

  lemma FourJoined(a: string, b: string, c: string, d: string, tail: string)
    ensures (a + (b + c)) + d + tail == a + (b + (c + (d + tail)))
  {
  }

  /** A name begins with its first key, and the brackets behind it with a bracket. */
  lemma PartsStart(parts: seq<Part>, tail: string)
    requires parts == [] || AreParts(parts)
    requires tail != "" && tail[0] == ']'
    ensures var text := PartsText(parts) + tail;
            && text != "" && SkipBlanks(text) == text && !IsBlank(text[0]) && text[0] != '[' && text[0] != '.'
            && (text[0] == ']' <==> parts == [])
  {
    hide KeySpelled, IsKey;
    if parts != [] {
      PartsAre(parts);
      PartsUnfold(parts, tail);
      KeyStarts(parts[0].key, parts[0].behind + BehindKey(parts, tail), {'.', ']'});
      NoDotFirst(parts[0].key, parts[0].behind + BehindKey(parts, tail));
    } else {
      assert PartsText(parts) + tail == tail;
    }
  }

  lemma NoDotFirst(key: Key, more: string)
    requires IsKey(key, {'.', ']'})
    ensures (KeySpelled(key) + more)[0] != '.'
  {
    hide CharsText;
  }

  /** Behind a component the dot, if there is one, and blanks are passed over. */
  lemma DotSkipped(parts: seq<Part>, tail: string)
    requires AreParts(parts) && tail != "" && tail[0] == ']'
    ensures SkipDot(BehindKey(parts, tail)) == PartsText(parts[1..]) + tail
  {
    hide PartsText, IsKey, Name;
    PartsAre(parts);
    var rest := PartsText(parts[1..]) + tail;
    PartsStart(parts[1..], tail);
    if parts[0].dot {
      assert BehindKey(parts, tail) == "." + (parts[0].gap + rest);
      assert ("." + (parts[0].gap + rest))[1..] == parts[0].gap + rest;
      BlanksSkipped(parts[0].gap, rest);
    } else {
      assert BehindKey(parts, tail) == rest;
    }
  }

  /** The first component is read up to its dot, or to what follows it. */
  lemma PartRead(parts: seq<Part>, tail: string)
    requires AreParts(parts) && tail != "" && tail[0] == ']'
    ensures ParseKey(PartsText(parts) + tail, {'.', ']'}) == Success((Name(parts[0].key), BehindKey(parts, tail)))
  {
    hide ParseKey, PartsText, CharsText, CharsMean, SkipBlanks;
    PartsAre(parts);
    PartsUnfold(parts, tail);
    PartsStart(parts[1..], tail);
    var p, rest := parts[0], BehindKey(parts, tail);
    if !p.dot {
      assert rest == PartsText(parts[1..]) + tail;
    }
    match p.key
    case Plain(name) =>
      if !p.dot {
        assert |parts| == 1;
        assert PartsText(parts[1..]) + tail == tail by { NoParts(parts[1..]); }
      }
      PlainReads(name, p.behind, rest, {'.', ']'});
    case Quotes(chars) => QuotesRead(chars, p.behind, rest, {'.', ']'});
  }

  lemma NoParts(parts: seq<Part>)
    requires parts == []
    ensures PartsText(parts) == ""
  {
  }

  lemma {:induction false} PartsRead(parts: seq<Part>, tail: string)
    requires AreParts(parts) && tail != "" && tail[0] == ']'
    ensures PathKeys(PartsText(parts) + tail) == Success((Names(parts), tail))
    decreases |parts|
  {
    hide ParseKey, BehindKey, SkipDot, PartsText, IsPart, Name, AreParts;
    PartsAre(parts);
    PartsStart(parts, tail);
    PartRead(parts, tail);
    DotSkipped(parts, tail);
    NamedPart(parts[0]);
    if |parts| > 1 {
      PartsRead(parts[1..], tail);
    } else {
      NoParts(parts[1..]);
      assert "" + tail == tail;
      assert [Name(parts[0].key)] + [] == [Name(parts[0].key)];
    }
  }

  lemma NamedPart(part: Part)
    requires IsPart(part)
    ensures Name(part.key) != ""
  {
  }

  lemma KeyStarts(key: Key, more: string, stops: set<char>)
    requires IsKey(key, stops)
    ensures var s := KeySpelled(key) + more;
            s != "" && SkipBlanks(s) == s && !IsBlank(s[0]) && s[0] !in {']', '[', '#'}
  {
    hide CharsText;
  }

  // ---------------------------------------------------------------- lines

  lemma IdleIs(s: string)
    requires IsIdle(s)
    ensures LineEnds(s) && LineEnds(SkipBlanks(s))
    ensures s == "" || IsBlank(s[0]) || s[0] == '#'
  {
    SkipTwice(s);
  }

  lemma IdleLine(text: string, more: seq<string>, st: Reading)
    requires IsIdle(text) && Valid(st)
    ensures Exec([text] + more, st) == Exec(more, st)
  {
    assert ([text] + more)[1..] == more;
  }

  /** A line that begins with a bracket behind its indentation. */
  lemma BracketLine(indent: string, s: string, more: seq<string>, st: Reading)
    requires AreBlanks(indent) && Valid(st)
    ensures Exec([indent + ("[" + s)] + more, st)
         == match Header(s, st.root) case Failure => Failure case Success(st') => Exec(more, st')
  {
    hide Header;
    BlanksSkipped(indent, "[" + s);
    assert SkipBlanks("[" + s) == "[" + s && ("[" + s)[1..] == s;
    assert ([indent + ("[" + s)] + more)[1..] == more;
  }

  lemma LeadingBlanks(lead: string, parts: seq<Part>, tail: string)
    requires AreBlanks(lead) && AreParts(parts) && tail != "" && tail[0] == ']'
    ensures var text := lead + (PartsText(parts) + tail);
            text != "" && text[0] != ']' && text[0] != '[' && PathKeys(text) == Success((Names(parts), tail))
  {
    hide PartsText, StringLiteral, BareKey, Until, SkipDot, AreParts;
    var name := PartsText(parts) + tail;
    PartsAre(parts);
    PartsStart(parts, tail);
    PartsRead(parts, tail);
    BlanksSkipped(lead, name);
    if lead == "" {
      assert lead + name == name;
    } else {
      assert IsBlank(lead[0]);
    }
  }

  lemma TableLine(indent: string, lead: string, parts: seq<Part>, tail: string, more: seq<string>, st: Reading)
    requires IsLine(TableName(indent, lead, parts, tail), more) && Valid(st)
    ensures Exec([indent + ("[" + (lead + (PartsText(parts) + ("]" + tail))))] + more, st)
         == match Does(TableName(indent, lead, parts, tail), st)
            case Failure => Failure
            case Success(s) => Exec(more, s)
  {
    hide Exec, PartsText, AreParts, OpenTable, LineEnds, PathKeys;
    BracketLine(indent, lead + (PartsText(parts) + ("]" + tail)), more, st);
    LeadingBlanks(lead, parts, "]" + tail);
    IdleIs(tail);
    assert ("]" + tail)[1..] == tail;
  }

  lemma SeriesLine(indent: string, lead: string, parts: seq<Part>, second: char, tail: string, more: seq<string>,
                   st: Reading)
    requires IsLine(SeriesName(indent, lead, parts, second, tail), more) && Valid(st)
    ensures Exec([indent + ("[[" + (lead + (PartsText(parts) + ("]" + ([second] + tail)))))] + more, st)
         == match Does(SeriesName(indent, lead, parts, second, tail), st)
            case Failure => Failure
            case Success(s) => Exec(more, s)
  {
    hide Exec, PartsText, AreParts, AppendTable, LineEnds, PathKeys;
    var end := "]" + ([second] + tail);
    var text := lead + (PartsText(parts) + end);
    assert "[[" + text == "[" + ("[" + text) && ("[" + text)[1..] == text;
    PartsAre(parts);
    BracketLine(indent, "[" + text, more, st);
    LeadingBlanks(lead, parts, end);
    IdleIs(tail);
    assert end[2..] == tail;
  }

  /** A line that begins with a key behind its indentation. */
  lemma KeyLine(indent: string, s: string, more: seq<string>, st: Reading)
    requires AreBlanks(indent) && Valid(st) && s != "" && SkipBlanks(s) == s && s[0] != '[' && s[0] != '#'
    ensures Exec([indent + s] + more, st)
         == match KeyValue(s, more, st) case Failure => Failure case Success(next) => Exec(next.1, next.0)
  {
    hide KeyValue;
    BlanksSkipped(indent, s);
    assert ([indent + s] + more)[1..] == more;
  }

  lemma ItemLine(indent: string, key: Key, before: string, behind: string, value: Spelled, tail: string,
                 more: seq<string>, st: Reading)
    requires IsLine(Item(indent, key, before, behind, value, tail), more) && Valid(st)
    ensures var p := Spell(value, Place(tail, more));
            Exec([indent + (KeySpelled(key) + (before + ("=" + (behind + p.text))))] + p.lines, st)
              == match Does(Item(indent, key, before, behind, value, tail), st)
                 case Failure => Failure
                 case Success(s) => Exec(more, s)
  {
    hide Exec, Spell, KeySpelled, ParseKey, ParseValue, IsKey, Name, Means, LineEnds, Insert, Current, Fits;
    var p := Spell(value, Place(tail, more));
    var rest := behind + p.text;
    var s := KeySpelled(key) + (before + ("=" + rest));
    KeyStarts(key, before + ("=" + rest), {'='});
    KeyLine(indent, s, p.lines, st);
    KeyRead(key, before, "=" + rest, {'='});
    assert ("=" + rest)[1..] == rest;
    ValueStarts(value, behind, Place(tail, more));
    ValueReads(value, Place(tail, more));
    LeftEnds(value, tail, more);
  }

  lemma ValueStarts(value: Spelled, behind: string, after: Place)
    requires Fits(value, after) && AreBlanks(behind)
    ensures SkipBlanks(behind + Spell(value, after).text) == Spell(value, after).text
  {
    hide Spell, Fits;
    SpellStarts(value, after);
    BlanksSkipped(behind, Spell(value, after).text);
  }

  lemma LeftEnds(value: Spelled, tail: string, more: seq<string>)
    requires IsIdle(tail)
    ensures var left := Left(value, Place(tail, more)); LineEnds(left.text) && left.lines == more
  {
    IdleIs(tail);
  }

  /** Any spelled text does what its lines mean, one after the other, or fails with the first that cannot be done. */
  lemma {:induction false} LinesDo(doc: seq<Line>, st: Reading)
    requires AreLines(doc) && Valid(st)
    ensures Exec(TextLines(doc), st) == DoesAll(doc, st)
    decreases |doc|
  {
    hide Exec, IsLine, Does, Spell, PartsText, KeySpelled;
    if doc == [] {
      TomlRoundTrip.ExecNothing(st);
    } else {
      var more := TextLines(doc[1..]);
      match doc[0] {
        case Idle(text) => IdleIsSkipped(text, more, st);
        case TableName(indent, lead, parts, tail) => TableLine(indent, lead, parts, tail, more, st);
        case SeriesName(indent, lead, parts, second, tail) =>
          SeriesLine(indent, lead, parts, second, tail, more, st);
        case Item(indent, key, before, behind, value, tail) =>
          ItemLine(indent, key, before, behind, value, tail, more, st);
      }
      if Does(doc[0], st).Success? {
        LinesDo(doc[1..], Does(doc[0], st).value);
      }
    }
  }

  lemma IdleIsSkipped(text: string, more: seq<string>, st: Reading)
    requires IsLine(Idle(text), more) && Valid(st)
    ensures Exec([text] + more, st)
         == match Does(Idle(text), st) case Failure => Failure case Success(s) => Exec(more, s)
  {
    hide Exec;
    IdleLine(text, more, st);
  }

  /** The tables of a text. */
  lemma TextReads(doc: seq<Line>)
    requires AreLines(doc)
    requires TomlRoundTrip.AllOneLine(TextLines(doc))
    ensures var end := DoesAll(doc, Reading(EMPTY, []));
            Parse(TomlPrinter.Unlines(TextLines(doc)))
              == if end.Success? then Success(end.value.root) else Failure
  {
    hide Exec, Lines, TextLines, IsLine, TomlPrinter.Unlines;
    TomlRoundTrip.LinesOfUnlines(TextLines(doc));
    LinesDo(doc, Reading(EMPTY, []));
  }
}
