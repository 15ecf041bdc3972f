/** Every text that src/cpptoml.h reads is one of those that can be spelled, so the spelled texts are the ones it
    accepts. */
module TomlEveryText {
  import opened Wrappers
  import opened TomlText
  import opened TomlKeys
  import opened TomlTree
  import opened TomlReader
  import opened TomlComments
  import opened TomlSpelling
  import opened TomlSpelledArrays
  import opened TomlSpelledTexts
  import opened TomlEveryValue

  // ---------------------------------------------------------------- keys

  lemma {:induction false} TrimmedOff(s: string)
    ensures AreBlanks(s[|TrimEnd(s)|..]) && s == TrimEnd(s) + s[|TrimEnd(s)|..]
  {
    if |s| > 1 && IsBlank(s[|s| - 1]) {
      TrimmedOff(s[..|s| - 1]);
      var k := |TrimEnd(s)|;
      assert s[k..] == s[..|s| - 1][k..] + [s[|s| - 1]];
    } else {
      assert s[|s|..] == "" && s == s + "";
    }
  }

  lemma {:induction false} UntilLacks(s: string, stops: set<char>)
    ensures forall i :: 0 <= i < Until(s, stops) ==> s[i] !in stops
    ensures Until(s, stops) < |s| ==> s[Until(s, stops)] in stops
  {
    if s != "" && s[0] !in stops {
      UntilLacks(s[1..], stops);
      assert forall i :: 0 < i < Until(s, stops) ==> s[i] == s[1..][i - 1];
    }
  }

  lemma PlainOf(s: string, stops: set<char>) returns (key: Key, behind: string, rest: string)
    requires s != "" && !IsBlank(s[0]) && s[0] != '\"' && ParseKey(s, stops).Success?
    ensures key.Plain? && IsKey(key, stops) && AreBlanks(behind) && s == KeySpelled(key) + (behind + rest)
    ensures rest == "" || rest[0] in stops
    ensures ParseKey(s, stops) == Success((Name(key), rest))
  {
    hide Until, TrimEnd;
    assert SkipBlanks(s) == s;
    var n := Until(s, stops);
    UntilLacks(s, stops);
    var t := s[..n];
    TrimmedOff(t);
    var k := TrimEnd(t);
    key, behind, rest := Plain(k), t[|k|..], s[n..];
    assert s == t + rest && t == k + behind;
    assert forall i :: 0 <= i < |k| ==> k[i] == t[i] == s[i];
  }

  lemma QuotesOf(s: string, stops: set<char>) returns (key: Key, behind: string, rest: string)
    requires s != "" && s[0] == '\"' && ParseKey(s, stops).Success?
    ensures key.Quotes? && IsKey(key, stops) && AreBlanks(behind) && s == KeySpelled(key) + (behind + rest)
    ensures rest == "" || !IsBlank(rest[0])
    ensures ParseKey(s, stops).value.1 == rest
    ensures rest != "" ==> ParseKey(s, stops).value.0 == Name(key)
  {
    hide LiteralBody, CharsText, CharsMean, AreChars;
    assert SkipBlanks(s) == s;
    var chars, tail := CharsOf(s[1..], "");
    CharsRead(chars, tail, "");
    assert "" + CharsMean(chars) == CharsMean(chars);
    behind := BlanksOf(tail);
    key, rest := Quotes(chars), SkipBlanks(tail);
    assert s == "\"" + s[1..];
    assert "\"" + (CharsText(chars) + ("\"" + tail)) == ("\"" + (CharsText(chars) + "\"")) + tail;
  }

  /** Any key that is read has a spelling. */
  lemma KeyOf(s: string, stops: set<char>) returns (key: Key, behind: string, rest: string)
    requires s != "" && !IsBlank(s[0]) && ParseKey(s, stops).Success?
    ensures IsKey(key, stops) && AreBlanks(behind) && s == KeySpelled(key) + (behind + rest)
    ensures ParseKey(s, stops).value.1 == rest && (rest != "" ==> ParseKey(s, stops).value.0 == Name(key))
    ensures rest == "" || !IsBlank(rest[0]) || rest[0] in stops
    ensures key.Plain? ==> rest == "" || rest[0] in stops
  {
    hide ParseKey, IsKey, KeySpelled, Name;
    if s[0] == '\"' {
      key, behind, rest := QuotesOf(s, stops);
    } else {
      key, behind, rest := PlainOf(s, stops);
    }
  }

  // ---------------------------------------------------------------- names of tables

  lemma PartJoined(key: string, behind: string, dot: string, rest: string)
    ensures key + (behind + (dot + rest)) == (key + (behind + dot)) + rest
  {
  }

  /** The name of a table, from its first key on. */
  lemma {:induction false} PartsOf(s: string) returns (parts: seq<Part>, tail: string)
    requires s != "" && s[0] != ']' && !IsBlank(s[0]) && PathKeys(s).Success?
    ensures AreParts(parts) && s == PartsText(parts) + tail && tail != "" && tail[0] == ']'
    decreases |s|
  {
    hide ParseKey, IsKey, KeySpelled, AreParts, SkipBlanks;
    var key, behind, rest := KeyOf(s, {'.', ']'});
    NoPathInNothing();
    assert rest != "";
    var dot := rest[0] == '.';
    var gap := "";
    RestIsNoBlank(rest);
    if dot {
      gap := BlanksOf(rest[1..]);
      assert rest == "." + rest[1..];
    }
    var next := SkipDot(rest);
    assert rest == (if dot then "." + gap else "") + next;
    var part := Part(key, behind, dot, gap);
    PartJoined(KeySpelled(key), behind, if dot then "." + gap else "", next);
    NoBlankFirst(rest);
    if next[0] == ']' {
      parts, tail := [part], next;
      OnePart(part);
    } else {
      parts, tail := PartsOf(next);
      MoreParts(part, parts, tail);
      parts := [part] + parts;
    }
  }

  lemma NoPathInNothing()
    ensures SkipDot("") == "" && PathKeys("").Failure?
  {
  }

  lemma RestIsNoBlank(rest: string)
    requires rest != "" && (!IsBlank(rest[0]) || rest[0] in {'.', ']'})
    ensures SkipBlanks(rest) == rest
  {
  }

  lemma NoBlankFirst(rest: string)
    ensures var next := SkipDot(rest); next != "" ==> !IsBlank(next[0])
  {
  }

  lemma OnePart(part: Part)
    requires IsPart(part)
    ensures AreParts([part]) && PartsText([part]) == PartText(part)
  {
    hide IsPart, PartText;
    assert [part][1..] == [] && PartText(part) + "" == PartText(part);
  }

  lemma MoreParts(part: Part, parts: seq<Part>, tail: string)
    requires IsPart(part) && AreParts(parts) && (part.dot || part.key.Quotes?)
    ensures AreParts([part] + parts)
    ensures PartsText([part] + parts) + tail == PartText(part) + (PartsText(parts) + tail)
  {
    hide IsPart, PartText;
    assert ([part] + parts)[1..] == parts;
  }

  /** The name of a table behind its bracket. */
  lemma NameOf(s: string) returns (lead: string, parts: seq<Part>, tail: string)
    requires s != "" && s[0] != ']' && PathKeys(s).Success?
    ensures AreBlanks(lead) && AreParts(parts) && s == lead + (PartsText(parts) + ("]" + tail))
    ensures PathKeys(s) == Success((Names(parts), "]" + tail))
  {
    hide PathKeys, AreParts, PartsText;
    lead := BlanksOf(s);
    BlanksNoName(s);
    var end;
    parts, end := PartsOf(SkipBlanks(s));
    tail := end[1..];
    assert end == "]" + tail;
    LeadingBlanks(lead, parts, end);
  }

  lemma BlanksNoName(s: string)
    requires s != "" && s[0] != ']' && PathKeys(s).Success?
    ensures var t := SkipBlanks(s); t != "" && t[0] != ']' && !IsBlank(t[0]) && PathKeys(t).Success?
  {
    hide StringLiteral, SkipDot;
    SkipTwice(s);
  }

  // ---------------------------------------------------------------- lines

  lemma LineEndsIdle(s: string)
    requires LineEnds(s)
    ensures IsIdle(s)
  {
  }

  lemma LeftIdle(v: Spelled, after: Place)
    requires LineEnds(Left(v, after).text)
    ensures IsIdle(after.text)
  {
    SkipTwice(after.text);
  }

  /** Any line that names a table, or an array of tables. */
  lemma HeaderOf(s: string, root: Table, indent: string, more: seq<string>) returns (line: Line)
    requires Header(s, root).Success? && AreBlanks(indent)
    ensures IsLine(line, more)
    ensures forall rest: seq<Line> :: TextLines([line] + rest) == [indent + ("[" + s)] + TextLines(rest)
  {
    hide PathKeys, AreParts, PartsText, OpenTable, AppendTable, LineEnds;
    if s[0] == '[' {
      var lead, parts, tail := NameOf(s[1..]);
      var end := "]" + tail;
      assert s == "[" + s[1..];
      assert end == "]" + ([tail[0]] + tail[1..]) && end[2..] == tail[1..];
      LineEndsIdle(tail[1..]);
      line := SeriesName(indent, lead, parts, tail[0], tail[1..]);
      assert "[" + ("[" + (lead + (PartsText(parts) + end))) == "[[" + (lead + (PartsText(parts) + end));
    } else {
      var lead, parts, tail := NameOf(s);
      assert ("]" + tail)[1..] == tail;
      LineEndsIdle(tail);
      line := TableName(indent, lead, parts, tail);
    }
    forall rest: seq<Line>
      ensures TextLines([line] + rest) == [indent + ("[" + s)] + TextLines(rest)
    {
      assert ([line] + rest)[1..] == rest;
    }
  }

  /** Any item, with the lines that its value takes. */
  lemma ItemOf(s: string, lines: seq<string>, st: Reading, indent: string) returns (line: Line, more: seq<string>)
    requires Valid(st) && KeyValue(s, lines, st).Success? && AreBlanks(indent)
    requires s != "" && !IsBlank(s[0])
    ensures line.Item? && IsLine(line, more) && KeyValue(s, lines, st).value.1 == more
    ensures forall rest: seq<Line> :: TextLines(rest) == more ==> TextLines([line] + rest) == [indent + s] + lines
  {
    hide ParseKey, ParseValue, IsKey, KeySpelled, Fits, Spell, LineEnds, Insert, Current, SkipBlanks;
    var key, before, rest := KeyOf(s, {'='});
    var behind := BlanksOf(rest[1..]);
    var v, after := ValueOf(Place(SkipBlanks(rest[1..]), lines));
    ValueReads(v, after);
    LeftIdle(v, after);
    more := after.lines;
    line := Item(indent, key, before, behind, v, after.text);
    assert rest == "=" + rest[1..];
    assert after == Place(after.text, more);
    ItemLines(line, s, lines, more);
  }

  lemma ItemLines(line: Line, s: string, lines: seq<string>, more: seq<string>)
    requires line.Item?
    requires var p := Spell(line.value, Place(line.tail, more));
             p.lines == lines && s == KeySpelled(line.key) + (line.before + ("=" + (line.behind + p.text)))
    ensures forall rest: seq<Line> :: TextLines(rest) == more ==> TextLines([line] + rest) == [line.indent + s] + lines
  {
    hide Spell, KeySpelled;
    forall rest: seq<Line> | TextLines(rest) == more
      ensures TextLines([line] + rest) == [line.indent + s] + lines
    {
      assert ([line] + rest)[1..] == rest;
    }
  }

  /** Any lines that are read have a spelling. */
  lemma {:induction false} LinesOf(lines: seq<string>, st: Reading) returns (doc: seq<Line>)
    requires Valid(st) && Exec(lines, st).Success?
    ensures AreLines(doc) && TextLines(doc) == lines
    decreases |lines|
  {
    hide Header, KeyValue, IsLine, SkipBlanks;
    if lines == [] {
      doc := [];
    } else {
      var indent := BlanksOf(lines[0]);
      var s, others := SkipBlanks(lines[0]), lines[1..];
      assert lines == [lines[0]] + others;
      if s == "" || s[0] == '#' {
        doc := LinesOf(others, st);
        IdleLineOf(lines[0], doc);
        doc := [Idle(lines[0])] + doc;
      } else if s[0] == '[' {
        doc := LinesOf(others, Header(s[1..], st.root).value);
        var line := HeaderOf(s[1..], st.root, indent, TextLines(doc));
        assert s == "[" + s[1..];
        OneMoreLine(line, doc);
        doc := [line] + doc;
      } else {
        var next := KeyValue(s, others, st).value;
        doc := LinesOf(next.1, next.0);
        var line, more := ItemOf(s, others, st, indent);
        OneMoreLine(line, doc);
        doc := [line] + doc;
      }
    }
  }

  lemma OneMoreLine(line: Line, doc: seq<Line>)
    requires IsLine(line, TextLines(doc)) && AreLines(doc)
    ensures AreLines([line] + doc)
  {
    hide IsLine;
    assert ([line] + doc)[1..] == doc;
  }

  lemma IdleLineOf(text: string, doc: seq<Line>)
    requires AreLines(doc) && (SkipBlanks(text) == "" || SkipBlanks(text)[0] == '#')
    ensures AreLines([Idle(text)] + doc) && TextLines([Idle(text)] + doc) == [text] + TextLines(doc)
  {
    assert ([Idle(text)] + doc)[1..] == doc;
    OneMoreLine(Idle(text), doc);
  }

  ghost predicate SpelledAs(lines: seq<string>, doc: seq<Line>, st: Reading, end: Reading)
    requires Valid(st)
  {
    AreLines(doc) && TextLines(doc) == lines && DoesAll(doc, st) == Success(end)
  }

  /** The reader accepts exactly the texts that can be spelled and whose lines can be done, and makes of them what they
      mean. */
  lemma Accepts(lines: seq<string>, st: Reading, end: Reading)
    requires Valid(st)
    ensures Exec(lines, st) == Success(end) <==> exists doc :: SpelledAs(lines, doc, st, end)
  {
    hide Exec, AreLines, TextLines, DoesAll;
    if Exec(lines, st) == Success(end) {
      var doc := LinesOf(lines, st);
      LinesDo(doc, st);
      assert SpelledAs(lines, doc, st, end);
    }
    forall doc | SpelledAs(lines, doc, st, end)
      ensures Exec(lines, st) == Success(end)
    {
      LinesDo(doc, st);
    }
  }
}
