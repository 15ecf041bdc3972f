/** Values and keys of src/cpptoml.h: their printed form and the reader that consumes it. The reader works on
    the rest of the current line and the lines that follow it. */
module TomlText {
  import opened Wrappers
  import opened Decimal
  import opened TomlDates

  datatype Value = Str(s: string) | Int(n: int) | Bool(b: bool) | Date(d: DateTime) | Arr(vs: seq<Value>)

  /** Where the reader is. */
  datatype Place = Place(text: string, lines: seq<string>)

  function LinesSize(lines: seq<string>): nat {
    if lines == [] then 0 else 1 + |lines[0]| + LinesSize(lines[1..])
  }

  function Size(p: Place): nat {
    |p.text| + LinesSize(p.lines)
  }

  /** The character under the iterator; NUL at the end of the line. */
  function Peek(s: string): char {
    if s == "" then '\0' else s[0]
  }

  predicate IsBlank(c: char) {
    c == ' ' || c == '\t'
  }

  function SkipBlanks(s: string): (t: string)
    ensures |t| <= |s| && (t != "" ==> !IsBlank(t[0]))
  {
    if s != "" && IsBlank(s[0]) then SkipBlanks(s[1..]) else s
  }

  // ---------------------------------------------------------------- strings

  function EscapeChar(c: char): string {
    if c == '\\' then "\\\\" else if c == '\"' then "\\\"" else if c == '\n' then "\\n" else [c]
  }

  /** escape_string */
  function Escape(s: string): string {
    if s == "" then "" else EscapeChar(s[0]) + Escape(s[1..])
  }

  function Quoted(s: string): string {
    "\"" + Escape(s) + "\""
  }

  /** The character that an escape code stands for. */
  function EscapeCode(c: char): Option<char> {
    match c
    case 'b' => Some(8 as char)
    case 't' => Some('\t')
    case 'n' => Some('\n')
    case 'f' => Some(12 as char)
    case 'r' => Some('\r')
    case '\"' => Some('\"')
    case '\\' => Some('\\')
    case _ => None
  }

  /** string_literal behind its opening delimiter. */
  function LiteralBody(s: string, delim: char, val: string): (r: Result<(string, string)>)
    ensures r.Success? ==> |r.value.1| < |s|
    decreases |s|
  {
    if s == "" then Failure
    else if delim == '\"' && s[0] == '\\' then
      if |s| == 1 then Failure
      else
        match EscapeCode(s[1])
        case None => Failure
        case Some(c) => LiteralBody(s[2..], delim, val + [c])
    else if s[0] == delim then Success((val, SkipBlanks(s[1..])))
    else LiteralBody(s[1..], delim, val + [s[0]])
  }

  /** string_literal at its opening delimiter. */
  function StringLiteral(s: string, delim: char): (r: Result<(string, string)>)
    requires s != ""
    ensures r.Success? ==> |r.value.1| < |s|
  {
    LiteralBody(s[1..], delim, "")
  }

  /** The reader takes one escaped character as the character it stands for. */
  lemma LiteralStep(c: char, more: string, val: string)
    ensures LiteralBody(EscapeChar(c) + more, '\"', val) == LiteralBody(more, '\"', val + [c])
  {
    var text := EscapeChar(c) + more;
    if c == '\\' || c == '\"' || c == '\n' {
      assert text[0] == '\\' && |text| >= 2 && EscapeCode(text[1]) == Some(c) && text[2..] == more;
    } else {
      assert text[0] == c && text[1..] == more;
    }
  }

  /** Reading the quoted form of any string gives the string back and stops behind the quote and blanks. */
  lemma {:induction false} LiteralOfEscaped(s: string, rest: string, val: string)
    ensures LiteralBody(Escape(s) + ("\"" + rest), '\"', val) == Success((val + s, SkipBlanks(rest)))
  {
    hide EscapeChar, EscapeCode, SkipBlanks;
    var tail := "\"" + rest;
    if s == "" {
      assert Escape(s) + tail == tail && tail[0] == '\"' && tail[1..] == rest && val + s == val;
    } else {
      LiteralOfEscaped(s[1..], rest, val + [s[0]]);
      LiteralStep(s[0], Escape(s[1..]) + tail, val);
      assert Escape(s) + tail == EscapeChar(s[0]) + (Escape(s[1..]) + tail);
      assert val + [s[0]] + s[1..] == val + s;
    }
  }

  lemma QuotedReads(s: string, rest: string)
    ensures Quoted(s) + rest != "" && StringLiteral(Quoted(s) + rest, '\"') == Success((s, SkipBlanks(rest)))
  {
    assert (Quoted(s) + rest)[1..] == Escape(s) + ("\"" + rest);
    LiteralOfEscaped(s, rest, "");
    assert "" + s == s;
  }

  // ---------------------------------------------------------------- integers and booleans

  predicate IsInt64(n: int) {
    -0x8000_0000_0000_0000 <= n < 0x8000_0000_0000_0000
  }

  /** eat_numbers: digits, with single underscores between them; the length eaten. */
  function EatNumbers(s: string): (r: Result<nat>)
    ensures r.Success? ==> 0 < r.value <= |s|
    decreases |s|
  {
    if s == "" || !IsDigit(s[0]) then Failure
    else if |s| > 1 && s[1] == '_' then
      if |s| == 2 || !IsDigit(s[2]) then Failure
      else var k :- EatNumbers(s[2..]); Success(2 + k)
    else if |s| > 1 && IsDigit(s[1]) then var k :- EatNumbers(s[1..]); Success(1 + k)
    else Success(1)
  }

  function Compact(s: string): string {
    if s == "" then "" else (if s[0] == '_' then "" else [s[0]]) + Compact(s[1..])
  }

  /** stoll on a sign and digits. */
  function ToInt64(s: string): Result<int> {
    var digits := if s != "" && (s[0] == '-' || s[0] == '+') then s[1..] else s;
    var k := DigitCount(digits);
    if k == 0 then Failure
    else
      var n: int := Accumulate(digits[..k], 0);
      var v := if s[0] == '-' then -n else n;
      if IsInt64(v) then Success(v) else Failure
  }

  /** parse_number, without the floating-point forms. */
  function ParseNumber(s: string): (r: Result<(Value, string)>)
    ensures r.Success? ==> r.value.0.Int? && |r.value.1| < |s|
  {
    var sign := if s != "" && (s[0] == '-' || s[0] == '+') then 1 else 0;
    var k :- EatNumbers(s[sign..]);
    var rest := s[sign + k..];
    if Peek(rest) == '.' || Peek(rest) == 'e' || Peek(rest) == 'E' then Failure
    else
      var n :- ToInt64(Compact(s[..sign + k]));
      Success((Int(n), rest))
  }

  function BoolLength(s: string): (n: nat)
    ensures n <= |s|
  {
    if s == "" || s[0] == ' ' || s[0] == '\t' || s[0] == '#' then 0 else 1 + BoolLength(s[1..])
  }

  function ParseBool(s: string): (r: Result<(Value, string)>)
    requires s != ""
    ensures r.Success? ==> r.value.0.Bool? && |r.value.1| < |s|
  {
    var n := BoolLength(s);
    if s[..n] == "true" then Success((Bool(true), s[n..]))
    else if s[..n] == "false" then Success((Bool(false), s[n..]))
    else Failure
  }

  // ---------------------------------------------------------------- values

  datatype Kind = KString | KDate | KInt | KFloat | KBool | KArray | KInlineTable

  /** determine_number_type */
  function NumberKind(s: string): Kind {
    var digits := if s != "" && (s[0] == '-' || s[0] == '+') then s[1..] else s;
    if Peek(digits[DigitCount(digits)..]) == '.' then KFloat else KInt
  }

  /** determine_value_type */
  function KindOf(s: string): Result<Kind> {
    var c := Peek(s);
    if c == '\"' || c == '\'' then Success(KString)
    else if IsDate(s) then Success(KDate)
    else if IsDigit(c) || c == '-' || c == '+' then Success(NumberKind(s))
    else if c == 't' || c == 'f' then Success(KBool)
    else if c == '[' then Success(KArray)
    else if c == '{' then Success(KInlineTable)
    else Failure
  }

  /** A string value; the multi-line forms are not modelled. */
  function ParseString(s: string): (r: Result<(Value, string)>)
    requires s != ""
    ensures r.Success? ==> r.value.0.Str? && |r.value.1| < |s|
  {
    if |s| > 2 && s[1] == s[0] && s[2] == s[0] then Failure
    else
      var r :- StringLiteral(s, s[0]);
      Success((Str(r.0), r.1))
  }

  /** skip_whitespace_and_comments: on to the next line while this one is used up. */
  function SkipLines(p: Place): (r: Result<Place>)
    ensures r.Success? ==> Size(r.value) <= Size(p) && |r.value.lines| <= |p.lines| && r.value.text != ""
    decreases |p.lines|
  {
    var text := SkipBlanks(p.text);
    if text != "" && text[0] != '#' then Success(Place(text, p.lines))
    else if p.lines == [] then Failure
    else SkipLines(Place(p.lines[0], p.lines[1..]))
  }

  /** How far the first value of an array reaches for its classification. */
  function FirstValueLength(s: string): (n: nat)
    ensures n <= |s|
  {
    if s == "" || s[0] == ',' || s[0] == ']' || s[0] == '#' then 0 else 1 + FirstValueLength(s[1..])
  }

  function KindFor(v: Value): Kind {
    match v
    case Str(_) => KString
    case Int(_) => KInt
    case Bool(_) => KBool
    case Date(_) => KDate
    case Arr(_) => KArray
  }

  function OnLine(p: Place, r: Result<(Value, string)>): (q: Result<(Value, Place)>)
    ensures r.Success? && |r.value.1| < |p.text| ==> q.Success? && Size(q.value.1) < Size(p)
    ensures q.Success? ==> r.Success? && q.value == (r.value.0, Place(r.value.1, p.lines))
    ensures q.Failure? <==> r.Failure?
  {
    match r
    case Failure => Failure
    case Success(v) => Success((v.0, Place(v.1, p.lines)))
  }

  function DateValue(s: string): (r: Result<(Value, string)>)
    ensures r.Success? ==> r.value.0.Date? && |r.value.1| < |s|
  {
    var d :- ParseDate(s);
    DateShortens(s);
    Success((Date(d.0), d.1))
  }

  lemma DateShortens(s: string)
    ensures ParseDate(s).Success? ==> |ParseDate(s).value.1| < |s|
  {
    hide EatDay, EatClock, EatOffset, EatFraction, Eat;
    if DateLength(s) == 0 {
      assert s[..0] == "";
      NoDateInNothing();
    }
  }

  lemma NoDateInNothing()
    ensures ParseDateRun("").Failure?
  {
  }

  /** parse_value; floating-point numbers and inline tables are not modelled. */
  function ParseValue(p: Place): (r: Result<(Value, Place)>)
    ensures r.Success? ==> Size(r.value.1) < Size(p) && |r.value.1.lines| <= |p.lines|
    decreases Size(p), 1
  {
    var kind :- KindOf(p.text);
    if p.text == "" then Failure
    else
      match kind
      case KString => OnLine(p, ParseString(p.text))
      case KDate => OnLine(p, DateValue(p.text))
      case KInt => OnLine(p, ParseNumber(p.text))
      case KBool => OnLine(p, ParseBool(p.text))
      case KArray => ParseArray(p)
      case _ => Failure
  }

  /** parse_array at its opening bracket. */
  function ParseArray(p: Place): (r: Result<(Value, Place)>)
    requires p.text != ""
    ensures r.Success? ==> r.value.0.Arr? && Size(r.value.1) < Size(p) && |r.value.1.lines| <= |p.lines|
    decreases Size(p), 0
  {
    var q :- SkipLines(Place(p.text[1..], p.lines));
    if q.text[0] == ']' then Success((Arr([]), Place(q.text[1..], q.lines)))
    else
      var kind :- KindOf(q.text[..FirstValueLength(q.text)]);
      match kind
      case KString => ParseValues(q, KString, [])
      case KInt => ParseValues(q, KInt, [])
      case KDate => ParseValues(q, KDate, [])
      case KArray => ParseArrays(q, [])
      case _ => Failure
  }

  /** parse_value_array: values of one kind, separated by commas. */
  function ParseValues(p: Place, kind: Kind, vs: seq<Value>): (r: Result<(Value, Place)>)
    ensures r.Success? ==> r.value.0.Arr? && Size(r.value.1) <= Size(p) && |r.value.1.lines| <= |p.lines|
    decreases Size(p), 2
  {
    if p.text == "" then Success((Arr(vs), p))
    else if p.text[0] == ']' then Success((Arr(vs), Place(p.text[1..], p.lines)))
    else
      var v :- ParseValue(p);
      if KindFor(v.0) != kind then Failure
      else
        var q :- SkipLines(v.1);
        if q.text[0] != ',' then Success((Arr(vs + [v.0]), Place(q.text[1..], q.lines)))
        else
          var q' :- SkipLines(Place(q.text[1..], q.lines));
          ParseValues(q', kind, vs + [v.0])
  }

  /** parse_object_array for arrays of arrays. */
  function ParseArrays(p: Place, vs: seq<Value>): (r: Result<(Value, Place)>)
    ensures r.Success? ==> r.value.0.Arr? && Size(r.value.1) <= Size(p) && |r.value.1.lines| <= |p.lines|
    decreases Size(p), 2
  {
    if p.text == "" then Failure
    else if p.text[0] == ']' then Success((Arr(vs), Place(p.text[1..], p.lines)))
    else if p.text[0] != '[' then Failure
    else
      var v :- ParseArray(p);
      var q :- SkipLines(v.1);
      if q.text[0] != ',' then
        if q.text[0] != ']' then Failure
        else Success((Arr(vs + [v.0]), Place(q.text[1..], q.lines)))
      else
        var q' :- SkipLines(Place(q.text[1..], q.lines));
        ParseArrays(q', vs + [v.0])
  }
}
