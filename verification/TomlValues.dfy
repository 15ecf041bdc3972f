/** The writer's values (src/cpptoml.h) and what the reader makes of them. */
module TomlValues {
  import opened Wrappers
  import opened Decimal
  import opened TomlDates
  import opened TomlText

  function PrintValue(v: Value): string {
    match v
    case Str(s) => Quoted(s)
    case Int(n) => IntText(n)
    case Bool(b) => if b then "true" else "false"
    case Date(d) => DateText(d)
    case Arr(vs) => "[" + ItemsText(vs) + "]"
  }

  function ItemsText(vs: seq<Value>): string {
    if vs == [] then ""
    else PrintValue(vs[0]) + (if |vs| == 1 then "" else ", ") + ItemsText(vs[1..])
  }

  /** Numbers in 64 bits, dates whose fields fit their columns. */
  predicate InRangeValue(v: Value) {
    match v
    case Int(n) => IsInt64(n)
    case Date(d) => InRange(d)
    case Arr(vs) => forall i :: 0 <= i < |vs| ==> InRangeValue(vs[i])
    case _ => true
  }

  /** What the reader sees in a printed value: arrays must be of one kind, which is not boolean. */
  function SeenValue(v: Value): (r: Result<Value>)
    ensures r.Success? ==> KindFor(r.value) == KindFor(v)
  {
    match v
    case Date(d) => Success(Date(SeenDate(d)))
    case Arr(vs) =>
      if vs == [] then Success(v)
      else if vs[0].Bool? then Failure
      else var ws :- SeenItems(vs, KindFor(vs[0])); Success(Arr(ws))
    case _ => Success(v)
  }

  function SeenItems(vs: seq<Value>, kind: Kind): Result<seq<Value>> {
    if vs == [] then Success([])
    else if KindFor(vs[0]) != kind then Failure
    else
      var w :- SeenValue(vs[0]);
      var ws :- SeenItems(vs[1..], kind);
      Success([w] + ws)
  }

  /** Well-signed dates, and arrays of one kind other than boolean. */
  predicate ReadableValue(v: Value) {
    match v
    case Date(d) => WellSigned(d)
    case Arr(vs) =>
      forall i :: 0 <= i < |vs| ==> !vs[i].Bool? && KindFor(vs[i]) == KindFor(vs[0]) && ReadableValue(vs[i])
    case _ => true
  }

  lemma {:induction false} SeenItemsSame(vs: seq<Value>, kind: Kind)
    ensures SeenItems(vs, kind) == Success(vs)
       <==> forall i :: 0 <= i < |vs| ==> KindFor(vs[i]) == kind && SeenValue(vs[i]) == Success(vs[i])
  {
    if vs != [] {
      SeenItemsSame(vs[1..], kind);
      assert vs == [vs[0]] + vs[1..];
      assert forall i :: 0 < i < |vs| ==> vs[i] == vs[1..][i - 1];
      if SeenItems(vs, kind) == Success(vs) {
        var w, ws := SeenValue(vs[0]).value, SeenItems(vs[1..], kind).value;
        assert ([w] + ws)[0] == w && ([w] + ws)[1..] == ws;
      }
    }
  }

  /** A value survives exactly when it is readable. */
  lemma {:induction false} SeenIsSame(v: Value)
    ensures SeenValue(v) == Success(v) <==> ReadableValue(v)
  {
    hide SeenItems;
    match v
    case Arr(vs) =>
      if vs != [] {
        SeenItemsSame(vs, KindFor(vs[0]));
        forall i | 0 <= i < |vs| ensures SeenValue(vs[i]) == Success(vs[i]) <==> ReadableValue(vs[i]) {
          SeenIsSame(vs[i]);
        }
      }
    case _ =>
  }

  // ---------------------------------------------------------------- what stands behind a value

  /** A value is followed by the end of the line, a comma or a closing bracket. */
  predicate Terminated(rest: string) {
    rest == "" || rest[0] == ',' || rest[0] == ']'
  }

  lemma {:induction false} EatNumbersIs(s: string, rest: string)
    requires s != "" && AllDigits(s) && Terminated(rest)
    ensures EatNumbers(s + rest) == Success(|s|)
  {
    var t := s + rest;
    if |s| > 1 {
      assert t[1..] == s[1..] + rest && t[1] == s[1];
      EatNumbersIs(s[1..], rest);
    } else {
      assert rest != "" ==> t[1] == rest[0];
    }
  }

  lemma {:induction false} CompactDigits(s: string)
    requires AllDigits(s)
    ensures Compact(s) == s
  {
    if s != "" {
      CompactDigits(s[1..]);
      assert s == [s[0]] + s[1..];
    }
  }

  lemma IntTextReads(n: int)
    requires IsInt64(n)
    ensures Compact(IntText(n)) == IntText(n)
    ensures ToInt64(IntText(n)) == Success(n)
  {
    var digits := Dec(if n < 0 then -n else n);
    CompactDigits(digits);
    AccumulateDec(if n < 0 then -n else n);
    DigitCountIs(digits, "");
    assert digits + "" == digits;
    assert digits[..|digits|] == digits;
    assert n < 0 ==> IntText(n)[1..] == digits;
  }

  lemma NumberReads(n: int, rest: string)
    requires IsInt64(n) && Terminated(rest)
    ensures ParseNumber(IntText(n) + rest) == Success((Int(n), rest))
  {
    hide ToInt64, Compact, EatNumbers, Dec;
    var s := IntText(n) + rest;
    var digits := Dec(if n < 0 then -n else n);
    EatNumbersIs(digits, rest);
    IntTextReads(n);
    NumberSlices(if n < 0 then "-" else "", digits, rest);
    assert "" + digits == digits;
  }

  lemma NumberSlices(sign: string, digits: string, rest: string)
    requires digits != ""
    ensures var s := sign + digits + rest;
      && s != "" && s[0] == (if sign == "" then digits[0] else sign[0])
      && s[|sign|..] == digits + rest
      && s[..|sign| + |digits|] == sign + digits && s[|sign| + |digits|..] == rest
  {
  }

  lemma NumberIsInt(n: int, rest: string)
    requires Terminated(rest)
    ensures KindOf(IntText(n) + rest) == Success(KInt)
  {
    hide Dec, DateLength;
    var t := IntText(n);
    var s := t + rest;
    var digits := Dec(if n < 0 then -n else n);
    assert forall i :: 1 <= i < |t| ==> IsDigit(t[i]);
    DateLengthIs(t, rest);
    assert !IsDate(s);
    DigitCountIs(digits, rest);
    if n < 0 {
      assert s[1..] == digits + rest;
    } else {
      assert s == digits + rest;
    }
    assert (digits + rest)[|digits|..] == rest;
  }

  lemma KindByFirst(s: string)
    requires s != "" && (s[0] == '\"' || s[0] == '[' || s[0] == 't' || s[0] == 'f')
    ensures KindOf(s) == Success(if s[0] == '\"' then KString else if s[0] == '[' then KArray else KBool)
  {
    hide NumberKind;
    assert DateLength(s) == 0;
  }

  lemma DateIsDate(d: DateTime, rest: string)
    requires InRange(d) && Terminated(rest)
    ensures KindOf(DateText(d) + rest) == Success(KDate)
    ensures DateText(d) != "" && AllDateChars(DateText(d))
  {
    hide DateText, IsDate, NumberKind;
    DateTextChars(d);
    ReadPrintedDate(d, rest);
    assert (DateText(d) + rest)[0] == DateText(d)[0];
  }

  /** Every printed value starts visibly and is classified by its kind. */
  lemma KindOfPrinted(v: Value, rest: string)
    requires InRangeValue(v) && Terminated(rest)
    ensures PrintValue(v) != "" && KindOf(PrintValue(v) + rest) == Success(KindFor(v))
    ensures Visible(PrintValue(v)[0]) && (PrintValue(v)[0] == '[' <==> v.Arr?)
  {
    hide KindOf, IntText, DateText, Escape, ItemsText;
    match v
    case Int(n) =>
      NumberIsInt(n, rest);
      IntStarts(n);
    case Date(d) => DateIsDate(d, rest);
    case _ =>
      KindByFirst(PrintValue(v) + rest);
  }

  predicate Visible(c: char) {
    !IsBlank(c) && c != '#' && c != ',' && c != ']'
  }

  lemma IntStarts(n: int)
    ensures IntText(n) != "" && (IsDigit(IntText(n)[0]) || IntText(n)[0] == '-')
    ensures AllDateChars(IntText(n))
  {
  }

  // ---------------------------------------------------------------- the first value of an array

  predicate NoneEnds(s: string) {
    forall i :: 0 <= i < |s| ==> s[i] != ',' && s[i] != ']' && s[i] != '#'
  }

  lemma {:induction false} FirstValueIs(s: string, rest: string)
    requires NoneEnds(s) && rest != "" && Terminated(rest)
    ensures FirstValueLength(s + rest) == |s|
  {
    if s == "" {
      assert s + rest == rest;
    } else {
      assert (s + rest)[1..] == s[1..] + rest;
      FirstValueIs(s[1..], rest);
    }
  }

  lemma FirstKind(v: Value, rest: string)
    requires InRangeValue(v) && rest != "" && Terminated(rest)
    ensures var text := PrintValue(v) + rest; KindOf(text[..FirstValueLength(text)]) == Success(KindFor(v))
  {
    hide KindOf, FirstValueLength, IntText, DateText, Escape, ItemsText;
    var text := PrintValue(v) + rest;
    KindOfPrinted(v, "");
    match v
    case Int(n) =>
      IntStarts(n);
      WholeFirst(PrintValue(v), rest);
    case Date(d) =>
      DateIsDate(d, "");
      WholeFirst(PrintValue(v), rest);
    case _ =>
      FirstIsNotEmpty(text);
      KindByFirst(text[..FirstValueLength(text)]);
  }

  lemma WholeFirst(s: string, rest: string)
    requires AllDateChars(s) && rest != "" && Terminated(rest)
    ensures (s + rest)[..FirstValueLength(s + rest)] == s + ""
  {
    assert forall i :: 0 <= i < |s| ==> IsDateChar(s[i]);
    FirstValueIs(s, rest);
    assert (s + rest)[..|s|] == s;
  }

  lemma FirstIsNotEmpty(s: string)
    requires s != "" && Visible(s[0])
    ensures FirstValueLength(s) > 0
  {
  }

  // ---------------------------------------------------------------- reading printed values

  /** What the reader makes of a printed value, with `rest` left on the line. */
  function Read(w: Result<Value>, rest: string, lines: seq<string>): Result<(Value, Place)> {
    match w
    case Failure => Failure
    case Success(v) => Success((v, Place(rest, lines)))
  }

  /** The text behind an element of an array. */
  function Behind(vs: seq<Value>, rest: string): string {
    if vs == [] then "]" + rest else ", " + (PrintValue(vs[0]) + Behind(vs[1..], rest))
  }

  lemma {:induction false} ItemsBehind(vs: seq<Value>, rest: string)
    requires vs != []
    ensures ItemsText(vs) + "]" + rest == PrintValue(vs[0]) + Behind(vs[1..], rest)
  {
    hide PrintValue;
    var p := PrintValue(vs[0]);
    if |vs| == 1 {
      assert vs[1..] == [] && ItemsText(vs) == p + "" + "";
      assert ItemsText(vs) + "]" + rest == p + ("]" + rest);
    } else {
      ItemsBehind(vs[1..], rest);
      assert vs[1..][1..] == vs[2..];
      assert ItemsText(vs) + "]" + rest == p + (", " + (ItemsText(vs[1..]) + "]" + rest));
    }
  }

  lemma BehindTerminates(vs: seq<Value>, rest: string)
    ensures Behind(vs, rest) != "" && Terminated(Behind(vs, rest))
  {
  }

  lemma SkipNothing(s: string, lines: seq<string>)
    requires s != "" && !IsBlank(s[0]) && s[0] != '#'
    ensures SkipLines(Place(s, lines)) == Success(Place(s, lines))
    ensures SkipLines(Place(" " + s, lines)) == Success(Place(s, lines))
  {
    assert (" " + s)[1..] == s;
    assert SkipBlanks(s) == s && SkipBlanks(" " + s) == s;
  }

  /** What is left of the elements: their values behind `acc`, and the text behind the closing bracket. */
  function ReadItems(ws: Result<seq<Value>>, acc: seq<Value>, rest: string, lines: seq<string>)
    : Result<(Value, Place)>
  {
    match ws
    case Failure => Failure
    case Success(vs) => Success((Arr(acc + vs), Place(rest, lines)))
  }

  predicate InRangeItems(vs: seq<Value>) {
    forall i :: 0 <= i < |vs| ==> InRangeValue(vs[i])
  }

  lemma ElementsInRange(v: Value)
    requires InRangeValue(v) && v.Arr?
    ensures InRangeItems(v.vs)
  {
  }

  /** The place behind an element. */
  lemma BehindElement(vs: seq<Value>, rest: string, lines: seq<string>)
    requires InRangeItems(vs)
    ensures var q := Place(Behind(vs, rest), lines);
      && SkipLines(q) == Success(q)
      && (vs == [] ==> q.text[0] == ']' && q.text[1..] == rest)
      && (vs != [] ==> q.text[0] == ','
                       && SkipLines(Place(q.text[1..], lines))
                          == Success(Place(PrintValue(vs[0]) + Behind(vs[1..], rest), lines)))
  {
    hide PrintValue, SkipLines, Size;
    var q := Place(Behind(vs, rest), lines);
    SkipNothing(q.text, lines);
    if vs != [] {
      var more := PrintValue(vs[0]) + Behind(vs[1..], rest);
      KindOfPrinted(vs[0], "");
      assert q.text[1..] == " " + more;
      SkipNothing(more, lines);
    }
  }

  /** The reader takes a printed value back, up to dates, and refuses exactly what cannot be seen. */
  lemma {:induction false} ReadPrintedValue(v: Value, rest: string, lines: seq<string>)
    requires InRangeValue(v) && Terminated(rest)
    ensures v.Bool? && rest != "" ==> ParseValue(Place(PrintValue(v) + rest, lines)).Failure?
    ensures !v.Bool? || rest == "" ==> ParseValue(Place(PrintValue(v) + rest, lines)) == Read(SeenValue(v), rest, lines)
    decreases v
  {
    hide KindOf, ParseArray, ParseDate, ParseNumber, StringLiteral,
         IntText, DateText, Escape, ItemsText, SeenItems, BoolLength;
    var text := PrintValue(v) + rest;
    KindOfPrinted(v, rest);
    match v
    case Str(s) =>
      QuotedReads(s, rest);
      NotTripled(s, rest);
      assert SkipBlanks(rest) == rest;
    case Int(n) => NumberReads(n, rest);
    case Bool(b) => BoolReads(b, rest);
    case Date(d) => ReadPrintedDate(d, rest);
    case Arr(vs) => ArrayReads(vs, rest, lines);
  }

  lemma NotTripled(s: string, rest: string)
    requires Terminated(rest)
    ensures var text := Quoted(s) + rest; text[0] == '\"' && !(|text| > 2 && text[1] == text[0] && text[2] == text[0])
  {
    if s != "" {
      assert Escape(s)[0] == EscapeChar(s[0])[0];
    }
  }

  lemma BoolReads(b: bool, rest: string)
    requires Terminated(rest)
    ensures var text := PrintValue(Bool(b)) + rest;
            ParseBool(text) == if rest == "" then Success((Bool(b), "")) else Failure
  {
    var word := if b then "true" else "false";
    var text := word + rest;
    BoolLengthIs(word, rest);
    var n := BoolLength(text);
    if rest == "" {
      assert text == word && text[..n] == word && text[n..] == "";
    } else {
      assert text[..n][|word|] == rest[0];
    }
  }

  lemma {:induction false} BoolLengthIs(word: string, rest: string)
    requires forall i :: 0 <= i < |word| ==> !IsBlank(word[i]) && word[i] != '#'
    requires Terminated(rest)
    ensures if rest == "" then BoolLength(word + rest) == |word| else BoolLength(word + rest) > |word|
  {
    if word == "" {
      assert word + rest == rest;
    } else {
      assert (word + rest)[1..] == word[1..] + rest;
      BoolLengthIs(word[1..], rest);
    }
  }

  /** The text behind the opening bracket. */
  function Inside(vs: seq<Value>, rest: string): string {
    if vs == [] then "]" + rest else PrintValue(vs[0]) + Behind(vs[1..], rest)
  }

  lemma ArrayOpens(vs: seq<Value>, rest: string)
    ensures var text := PrintValue(Arr(vs)) + rest; text != "" && text[1..] == Inside(vs, rest)
  {
    hide Behind;
    var text := PrintValue(Arr(vs)) + rest;
    assert text[1..] == ItemsText(vs) + "]" + rest;
    if vs == [] {
      assert "" + "]" + rest == "]" + rest;
    } else {
      ItemsBehind(vs, rest);
    }
  }

  lemma InsideStarts(vs: seq<Value>, rest: string, lines: seq<string>)
    requires InRangeItems(vs) && Terminated(rest)
    ensures var text := Inside(vs, rest);
      && text != "" && SkipLines(Place(text, lines)) == Success(Place(text, lines))
      && (vs == [] ==> text[0] == ']' && text[1..] == rest)
      && (vs != [] ==> text[0] != ']' && KindOf(text[..FirstValueLength(text)]) == Success(KindFor(vs[0])))
  {
    hide PrintValue, SkipLines, KindOf, Size, FirstValueLength, Behind;
    var text := Inside(vs, rest);
    if vs != [] {
      KindOfPrinted(vs[0], "");
      BehindTerminates(vs[1..], rest);
      FirstKind(vs[0], Behind(vs[1..], rest));
    }
    SkipNothing(text, lines);
  }

  lemma {:induction false} ArrayReads(vs: seq<Value>, rest: string, lines: seq<string>)
    requires InRangeItems(vs) && Terminated(rest)
    ensures PrintValue(Arr(vs)) + rest != ""
    ensures ParseArray(Place(PrintValue(Arr(vs)) + rest, lines)) == Read(SeenValue(Arr(vs)), rest, lines)
    decreases vs, 1
  {
    hide KindOf, SkipLines, ParseValues, ParseArrays, Size, FirstValueLength, SeenItems,
         PrintValue, Behind, InRangeValue;
    ArrayOpens(vs, rest);
    InsideStarts(vs, rest, lines);
    if vs != [] {
      var ws := SeenItems(vs, KindFor(vs[0]));
      assert ws.Success? ==> [] + ws.value == ws.value;
      if vs[0].Arr? {
        ArraysRead(vs, rest, lines, []);
      } else if !vs[0].Bool? {
        ItemsRead(vs, KindFor(vs[0]), rest, lines, []);
      }
    }
  }

  /** The elements of an array of strings, integers or dates. */
  lemma {:induction false} ItemsRead(vs: seq<Value>, kind: Kind, rest: string, lines: seq<string>, acc: seq<Value>)
    requires vs != [] && InRangeItems(vs) && Terminated(rest)
    requires kind == KString || kind == KInt || kind == KDate
    ensures ParseValues(Place(PrintValue(vs[0]) + Behind(vs[1..], rest), lines), kind, acc)
         == ReadItems(SeenItems(vs, kind), acc, rest, lines)
    decreases vs, 0
  {
    hide PrintValue, KindOf, SkipLines, ParseValue, Behind, Size, InRangeValue, SeenValue;
    var more := Behind(vs[1..], rest);
    KindOfPrinted(vs[0], "");
    BehindTerminates(vs[1..], rest);
    BehindElement(vs[1..], rest, lines);
    ReadPrintedValue(vs[0], more, lines);
    var w := SeenValue(vs[0]);
    if KindFor(vs[0]) == kind && w.Success? {
      AccGrows(SeenItems(vs[1..], kind), w.value, acc, rest, lines);
      if |vs| > 1 {
        ItemsRead(vs[1..], kind, rest, lines, acc + [w.value]);
      } else {
        assert acc + [w.value] + [] == acc + [w.value];
      }
    }
  }

  lemma AccGrows(ws: Result<seq<Value>>, w: Value, acc: seq<Value>, rest: string, lines: seq<string>)
    ensures ReadItems(ws, acc + [w], rest, lines)
         == ReadItems(if ws.Success? then Success([w] + ws.value) else Failure, acc, rest, lines)
  {
    if ws.Success? {
      assert acc + [w] + ws.value == acc + ([w] + ws.value);
    }
  }

  /** The elements of an array of arrays. */
  lemma {:induction false} ArraysRead(vs: seq<Value>, rest: string, lines: seq<string>, acc: seq<Value>)
    requires vs != [] && InRangeItems(vs) && Terminated(rest)
    ensures ParseArrays(Place(PrintValue(vs[0]) + Behind(vs[1..], rest), lines), acc)
         == ReadItems(SeenItems(vs, KArray), acc, rest, lines)
    decreases vs, 0
  {
    hide PrintValue, KindOf, SkipLines, ParseArray, Behind, Size, InRangeValue, SeenValue;
    var more := Behind(vs[1..], rest);
    KindOfPrinted(vs[0], "");
    BehindTerminates(vs[1..], rest);
    BehindElement(vs[1..], rest, lines);
    if vs[0].Arr? {
      assert vs[0] == Arr(vs[0].vs);
      ElementsInRange(vs[0]);
      ArrayReads(vs[0].vs, more, lines);
      var w := SeenValue(vs[0]);
      if w.Success? {
        AccGrows(SeenItems(vs[1..], KArray), w.value, acc, rest, lines);
        if |vs| > 1 {
          ArraysRead(vs[1..], rest, lines, acc + [w.value]);
        } else {
          assert acc + [w.value] + [] == acc + [w.value];
        }
      }
    }
  }
}
