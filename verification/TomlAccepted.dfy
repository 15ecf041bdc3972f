/** What the reader of src/cpptoml.h can produce: values in range, arrays of one kind other than boolean, and no empty
    arrays of tables. */
module TomlAccepted {
  import opened Wrappers
  import opened Decimal
  import opened TomlDates
  import opened TomlText
  import opened TomlValues
  import opened TomlKeys
  import opened TomlTree
  import opened TomlReader

  // ---------------------------------------------------------------- dates

  lemma Tenfold(acc: nat, d: nat, p: nat)
    requires d < 10
    ensures (10 * acc + d + 1) * p <= (acc + 1) * (10 * p)
  {
    assert (10 * acc + d + 1) * p <= (10 * acc + 10) * p;
  }

  lemma {:induction false} EatDigitsBelow(s: string, len: nat, acc: nat)
    requires EatDigits(s, len, acc).Success?
    ensures EatDigits(s, len, acc).value.0 < (acc + 1) * Power10(len)
    decreases len
  {
    if len > 0 {
      EatDigitsBelow(s[1..], len - 1, 10 * acc + DigitValue(s[0]));
      Tenfold(acc, DigitValue(s[0]), Power10(len - 1));
    }
  }

  lemma ColumnBelow(s: string, w: nat)
    requires w == 2 || w == 4
    ensures EatDigits(s, w, 0).Success? ==> EatDigits(s, w, 0).value.0 <= (if w == 2 then 99 else 9999)
  {
    hide EatDigits;
    Columns();
    if EatDigits(s, w, 0).Success? {
      EatDigitsBelow(s, w, 0);
    }
  }

  lemma DayBelow(s: string)
    requires EatDay(s).Success?
    ensures EatDay(s).value.0 <= 9999 && EatDay(s).value.1 <= 99 && EatDay(s).value.2 <= 99
  {
    hide EatDigits, Eat;
    ColumnBelow(s, 4);
    var s1 := Eat(EatDigits(s, 4, 0).value.1, '-').value;
    ColumnBelow(s1, 2);
    ColumnBelow(Eat(EatDigits(s1, 2, 0).value.1, '-').value, 2);
  }

  lemma ClockBelow(s: string)
    requires EatClock(s).Success?
    ensures EatClock(s).value.0 <= 99 && EatClock(s).value.1 <= 99 && EatClock(s).value.2 <= 99
  {
    hide EatDigits, Eat;
    ColumnBelow(s, 2);
    var s1 := Eat(EatDigits(s, 2, 0).value.1, ':').value;
    ColumnBelow(s1, 2);
    ColumnBelow(Eat(EatDigits(s1, 2, 0).value.1, ':').value, 2);
  }

  lemma OffsetBelow(s: string)
    requires s != "" && EatOffset(s).Success?
    ensures -99 <= EatOffset(s).value.0 <= 99 && -99 <= EatOffset(s).value.1 <= 99
  {
    hide EatDigits, Eat;
    if s[0] == '+' || s[0] == '-' {
      ColumnBelow(s[1..], 2);
      ColumnBelow(Eat(EatDigits(s[1..], 2, 0).value.1, ':').value, 2);
    }
  }

  lemma DateRunInRange(s: string)
    requires ParseDateRun(s).Success?
    ensures InRange(ParseDateRun(s).value)
  {
    hide EatDay, EatClock, EatOffset, EatFraction, Eat;
    DayBelow(s);
    var t := Eat(EatDay(s).value.3, 'T').value;
    ClockBelow(t);
    var fraction := EatFraction(EatClock(t).value.3);
    OffsetBelow(fraction.1);
  }

  // ---------------------------------------------------------------- values

  /** Values in range, arrays of one kind other than boolean; dates with any offset. */
  predicate ProperValue(v: Value) {
    match v
    case Int(n) => IsInt64(n)
    case Date(d) => InRange(d)
    case Arr(vs) => forall i :: 0 <= i < |vs| ==> !vs[i].Bool? && KindFor(vs[i]) == KindFor(vs[0]) && ProperValue(vs[i])
    case _ => true
  }

  predicate ProperItems(vs: seq<Value>, kind: Kind) {
    forall i :: 0 <= i < |vs| ==> KindFor(vs[i]) == kind && ProperValue(vs[i])
  }

  ghost predicate IsTail(a: seq<string>, b: seq<string>) {
    |a| <= |b| && b[|b| - |a|..] == a
  }

  lemma TailOfTail(a: seq<string>, b: seq<string>, c: seq<string>)
    requires IsTail(a, b) && IsTail(b, c)
    ensures IsTail(a, c)
  {
  }

  /** A proper value, and lines that are left from those there were. */
  ghost predicate Proper(r: Result<(Value, Place)>, lines: seq<string>) {
    r.Success? ==> ProperValue(r.value.0) && IsTail(r.value.1.lines, lines)
  }

  lemma {:induction false} SkipLinesTail(p: Place)
    ensures SkipLines(p).Success? ==> IsTail(SkipLines(p).value.lines, p.lines)
    decreases |p.lines|
  {
    hide SkipBlanks;
    var text := SkipBlanks(p.text);
    if !(text != "" && text[0] != '#') && p.lines != [] {
      SkipLinesTail(Place(p.lines[0], p.lines[1..]));
    }
  }

  lemma TailSelf(a: seq<string>)
    ensures IsTail(a, a)
  {
  }

  lemma SkippedTail(p: Place, lines: seq<string>)
    requires IsTail(p.lines, lines)
    ensures SkipLines(p).Success? ==> IsTail(SkipLines(p).value.lines, lines)
  {
    hide SkipLines;
    SkipLinesTail(p);
    if SkipLines(p).Success? {
      TailOfTail(SkipLines(p).value.lines, p.lines, lines);
    }
  }

  lemma ProperFrom(r: Result<(Value, Place)>, a: seq<string>, lines: seq<string>)
    requires Proper(r, a) && IsTail(a, lines)
    ensures Proper(r, lines)
  {
    if r.Success? {
      TailOfTail(r.value.1.lines, a, lines);
    }
  }

  lemma {:induction false} ValueProper(p: Place)
    ensures Proper(ParseValue(p), p.lines)
    decreases Size(p), 1
  {
    hide KindOf, ParseArray, ParseString, ParseBool, ToInt64, EatNumbers, Compact, ParseDateRun, Size, DateLength;
    var kind := KindOf(p.text);
    if kind.Success? && p.text != "" {
      match kind.value
      case KDate =>
        if ParseDateRun(p.text[..DateLength(p.text)]).Success? {
          DateRunInRange(p.text[..DateLength(p.text)]);
        }
      case KInt => NumberProper(p.text);
      case KArray => ArrayProper(p);
      case _ =>
    }
  }

  lemma NumberProper(s: string)
    ensures ParseNumber(s).Success? ==> ProperValue(ParseNumber(s).value.0)
  {
    hide EatNumbers, Compact;
  }

  lemma ItemsMakeArray(vs: seq<Value>, kind: Kind)
    requires ProperItems(vs, kind) && kind != KBool
    ensures ProperValue(Arr(vs))
  {
  }

  lemma ItemsMore(vs: seq<Value>, v: Value, kind: Kind)
    requires ProperItems(vs, kind) && KindFor(v) == kind && ProperValue(v) && kind != KBool
    ensures ProperItems(vs + [v], kind) && ProperValue(Arr(vs + [v]))
  {
    hide KindFor, ProperValue;
    ItemsMakeArray(vs + [v], kind);
  }

  lemma {:induction false} ArrayProper(p: Place)
    requires p.text != ""
    ensures Proper(ParseArray(p), p.lines)
    decreases Size(p), 0
  {
    hide KindOf, ParseValues, ParseArrays, SkipLines, FirstValueLength;
    var q := SkipLines(Place(p.text[1..], p.lines));
    SkipLinesTail(Place(p.text[1..], p.lines));
    if q.Success? && q.value.text[0] != ']' {
      var kind := KindOf(q.value.text[..FirstValueLength(q.value.text)]);
      if kind.Success? {
        match kind.value
        case KString => ValuesProper(q.value, KString, []);
        case KInt => ValuesProper(q.value, KInt, []);
        case KDate => ValuesProper(q.value, KDate, []);
        case KArray => ArraysProper(q.value, []);
        case _ =>
      }
    }
  }

  lemma {:induction false} ValuesProper(p: Place, kind: Kind, vs: seq<Value>)
    requires ProperItems(vs, kind) && kind != KBool
    ensures Proper(ParseValues(p, kind, vs), p.lines)
    decreases Size(p), 2
  {
    hide KindFor, ParseValue, SkipLines, ProperValue, ProperItems, IsTail;
    ItemsMakeArray(vs, kind);
    TailSelf(p.lines);
    if p.text != "" && p.text[0] != ']' {
      var v := ParseValue(p);
      ValueProper(p);
      if v.Success? && KindFor(v.value.0) == kind {
        ItemsMore(vs, v.value.0, kind);
        SkippedTail(v.value.1, p.lines);
        var q := SkipLines(v.value.1);
        if q.Success? && q.value.text[0] == ',' {
          var rest := Place(q.value.text[1..], q.value.lines);
          SkippedTail(rest, p.lines);
          if SkipLines(rest).Success? {
            var next := SkipLines(rest).value;
            ValuesProper(next, kind, vs + [v.value.0]);
            ProperFrom(ParseValues(next, kind, vs + [v.value.0]), next.lines, p.lines);
          }
        }
      }
    }
  }

  lemma {:induction false} ArraysProper(p: Place, vs: seq<Value>)
    requires ProperItems(vs, KArray)
    ensures Proper(ParseArrays(p, vs), p.lines)
    decreases Size(p), 2
  {
    hide KindFor, ParseArray, SkipLines, ProperValue, ProperItems, IsTail;
    ItemsMakeArray(vs, KArray);
    TailSelf(p.lines);
    if p.text != "" && p.text[0] == '[' {
      var v := ParseArray(p);
      ArrayProper(p);
      if v.Success? {
        ArrayKind(v.value.0);
        ItemsMore(vs, v.value.0, KArray);
        SkippedTail(v.value.1, p.lines);
        var q := SkipLines(v.value.1);
        if q.Success? && q.value.text[0] == ',' {
          var rest := Place(q.value.text[1..], q.value.lines);
          SkippedTail(rest, p.lines);
          if SkipLines(rest).Success? {
            var next := SkipLines(rest).value;
            ArraysProper(next, vs + [v.value.0]);
            ProperFrom(ParseArrays(next, vs + [v.value.0]), next.lines, p.lines);
          }
        }
      }
    }
  }

  lemma ArrayKind(v: Value)
    requires v.Arr?
    ensures KindFor(v) == KArray
  {
  }

  // ---------------------------------------------------------------- tables

  /** Proper values throughout and no empty array of tables; no empty key either, if `named`. */
  ghost predicate Accepted(t: Table, named: bool)
    decreases t
  {
    forall k :: k in t.entries ==> (named ==> k != "") && AcceptedNode(t.entries[k], named)
  }

  ghost predicate AcceptedNode(n: Node, named: bool)
    decreases n
  {
    match n
    case Leaf(v) => ProperValue(v)
    case Sub(t) => Accepted(t, named)
    case Many(ts) => ts != [] && forall i :: 0 <= i < |ts| ==> Accepted(ts[i], named)
  }

  lemma UpdateAccepted(t: Table, k: string, n: Node, named: bool)
    requires Accepted(t, named) && (named ==> k != "") && AcceptedNode(n, named)
    ensures Accepted(Table(t.entries[k := n]), named)
  {
  }

  lemma DownAccepted(n: Node, named: bool)
    requires AcceptedNode(n, named) && Down(n).Some?
    ensures Accepted(Down(n).value, named)
  {
  }

  lemma IntoAccepted(n: Node, s: Table, named: bool)
    requires AcceptedNode(n, named) && Down(n).Some? && Accepted(s, named)
    ensures AcceptedNode(Into(n, s), named)
  {
  }

  lemma {:induction false} AtAccepted(t: Table, path: seq<string>, named: bool)
    requires Accepted(t, named) && At(t, path).Some?
    ensures Accepted(At(t, path).value, named)
    decreases path
  {
    hide AcceptedNode;
    if path != [] {
      DownAccepted(t.entries[path[0]], named);
      AtAccepted(Down(t.entries[path[0]]).value, path[1..], named);
    }
  }

  lemma {:induction false} PutAccepted(t: Table, path: seq<string>, s: Table, named: bool)
    requires Accepted(t, named) && At(t, path).Some? && Accepted(s, named)
    ensures Accepted(Put(t, path, s), named)
    decreases path
  {
    hide AcceptedNode;
    if path != [] {
      var n := t.entries[path[0]];
      DownAccepted(n, named);
      PutAccepted(Down(n).value, path[1..], s, named);
      IntoAccepted(n, Put(Down(n).value, path[1..], s), named);
      UpdateAccepted(t, path[0], Into(n, Put(Down(n).value, path[1..], s)), named);
    }
  }

  lemma {:induction false} OpenAccepted(t: Table, path: seq<string>, inserted: bool, named: bool)
    requires Accepted(t, named) && NonEmpty(path) && OpenTable(t, path, inserted).Success?
    ensures Accepted(OpenTable(t, path, inserted).value, named)
    decreases path
  {
    hide AcceptedNode;
    if path != [] {
      var known := path[0] in t.entries;
      var n := if known then t.entries[path[0]] else Sub(EMPTY);
      NewAccepted(named);
      DownAccepted(n, named);
      OpenAccepted(Down(n).value, path[1..], inserted || !known, named);
      var s := OpenTable(Down(n).value, path[1..], inserted || !known).value;
      IntoAccepted(n, s, named);
      UpdateAccepted(t, path[0], Into(n, s), named);
    }
  }

  lemma NewAccepted(named: bool)
    ensures Accepted(EMPTY, named) && AcceptedNode(Sub(EMPTY), named) && AcceptedNode(Many([EMPTY]), named)
  {
  }

  lemma OneMoreAccepted(ts: seq<Table>, named: bool)
    requires AcceptedNode(Many(ts), named)
    ensures AcceptedNode(Many(ts + [EMPTY]), named)
  {
  }

  lemma {:induction false} AppendAccepted(t: Table, path: seq<string>, named: bool)
    requires path != [] && Accepted(t, named) && NonEmpty(path) && AppendTable(t, path).Success?
    ensures Accepted(AppendTable(t, path).value, named)
    decreases path
  {
    hide AcceptedNode;
    var known := path[0] in t.entries;
    NewAccepted(named);
    if |path| == 1 {
      if known {
        OneMoreAccepted(t.entries[path[0]].ts, named);
        UpdateAccepted(t, path[0], Many(t.entries[path[0]].ts + [EMPTY]), named);
      } else {
        UpdateAccepted(t, path[0], Many([EMPTY]), named);
      }
    } else {
      var n := if known then t.entries[path[0]] else Sub(EMPTY);
      DownAccepted(n, named);
      AppendAccepted(Down(n).value, path[1..], named);
      var s := AppendTable(Down(n).value, path[1..]).value;
      IntoAccepted(n, s, named);
      UpdateAccepted(t, path[0], Into(n, s), named);
    }
  }

  // ---------------------------------------------------------------- lines

  lemma {:induction false} PathKeysNamed(s: string)
    requires PathKeys(s).Success?
    ensures NonEmpty(PathKeys(s).value.0)
    decreases |s|
  {
    hide ParseKey, SkipDot;
    if s[0] != ']' {
      PathKeysNamed(SkipDot(ParseKey(s, {'.', ']'}).value.1));
    }
  }

  /** An empty key in quotes. */
  predicate StartsNameless(s: string) {
    |s| >= 2 && s[0] == '\"' && s[1] == '\"'
  }

  lemma {:induction false} LiteralGrows(s: string, delim: char, val: string)
    ensures LiteralBody(s, delim, val).Success? ==> |val| <= |LiteralBody(s, delim, val).value.0|
    ensures LiteralBody(s, delim, val).Success? && s[0] != delim ==> |val| < |LiteralBody(s, delim, val).value.0|
    decreases |s|
  {
    hide EscapeCode, SkipBlanks;
    if s != "" {
      if delim == '\"' && s[0] == '\\' {
        if |s| > 1 && EscapeCode(s[1]).Some? {
          LiteralGrows(s[2..], delim, val + [EscapeCode(s[1]).value]);
        }
      } else if s[0] != delim {
        LiteralGrows(s[1..], delim, val + [s[0]]);
      }
    }
  }

  lemma KeyNamed(s: string)
    requires SkipBlanks(s) == s && !StartsNameless(s)
    ensures ParseKey(s, {'='}).Success? ==> ParseKey(s, {'='}).value.0 != ""
  {
    hide LiteralBody, BareKey, Until, SkipBlanks;
    if s != "" && s[0] == '\"' {
      LiteralGrows(s[1..], '\"', "");
      assert |s| > 1 ==> s[1..][0] == s[1];
      if |s| == 1 {
        NoLiteral();
      }
    }
  }

  lemma NoLiteral()
    ensures LiteralBody("", '\"', "") == Failure
  {
  }

  lemma HeaderAccepted(s: string, root: Table, named: bool)
    requires Accepted(root, named) && Header(s, root).Success?
    ensures Accepted(Header(s, root).value.root, named)
  {
    hide Accepted, PathKeys, OpenTable, AppendTable, TomlTree.At, NonEmpty;
    if s[0] == '[' {
      PathKeysNamed(s[1..]);
      AppendAccepted(root, PathKeys(s[1..]).value.0, named);
    } else {
      PathKeysNamed(s);
      OpenAccepted(root, PathKeys(s).value.0, false, named);
    }
  }

  lemma KeyValueAccepted(s: string, lines: seq<string>, st: Reading, named: bool)
    requires Valid(st) && KeyValue(s, lines, st).Success? && Accepted(st.root, named)
    requires SkipBlanks(s) == s && (named ==> !StartsNameless(s))
    ensures Accepted(KeyValue(s, lines, st).value.0.root, named)
    ensures IsTail(KeyValue(s, lines, st).value.1, lines)
  {
    hide Accepted, ParseKey, ParseValue, TomlTree.At, Put, SkipBlanks, IsTail, ProperValue;
    if named {
      KeyNamed(s);
    }
    var key := ParseKey(s, {'='}).value;
    var p := Place(SkipBlanks(key.1[1..]), lines);
    ValueProper(p);
    var v := ParseValue(p).value.0;
    AtAccepted(st.root, st.cur, named);
    UpdateAccepted(Table(Current(st)), key.0, Leaf(v), named);
    PutAccepted(st.root, st.cur, Table(Current(st)[key.0 := Leaf(v)]), named);
  }

  /** None of the lines begins with an empty key. */
  predicate NamedLines(lines: seq<string>) {
    forall i :: 0 <= i < |lines| ==> !StartsNameless(SkipBlanks(lines[i]))
  }

  lemma TailNamed(a: seq<string>, b: seq<string>)
    requires IsTail(a, b) && NamedLines(b)
    ensures NamedLines(a)
  {
    assert forall i :: 0 <= i < |a| ==> a[i] == b[|b| - |a| + i];
  }

  lemma {:induction false} SkippedOnce(s: string)
    ensures SkipBlanks(SkipBlanks(s)) == SkipBlanks(s)
  {
    if s != "" && IsBlank(s[0]) {
      SkippedOnce(s[1..]);
    }
  }

  /** Whatever the reader builds from any lines is accepted. */
  lemma {:induction false} ExecAccepted(lines: seq<string>, st: Reading, named: bool)
    requires Valid(st) && Exec(lines, st).Success? && Accepted(st.root, named)
    requires named ==> NamedLines(lines)
    ensures Accepted(Exec(lines, st).value.root, named)
    decreases |lines|
  {
    hide Accepted, Header, KeyValue, SkipBlanks, TomlTree.At, IsTail, StartsNameless;
    if lines != [] {
      var s := SkipBlanks(lines[0]);
      SkippedOnce(lines[0]);
      if s == "" || s[0] == '#' {
        ExecAccepted(lines[1..], st, named);
      } else if s[0] == '[' {
        HeaderAccepted(s[1..], st.root, named);
        ExecAccepted(lines[1..], Header(s[1..], st.root).value, named);
      } else {
        var next := KeyValue(s, lines[1..], st).value;
        KeyValueAccepted(s, lines[1..], st, named);
        if named {
          TailNamed(next.1, lines[1..]);
        }
        ExecAccepted(next.1, next.0, named);
      }
    }
  }

  /** Every table that is read from any text. */
  lemma ParseAccepted(text: string)
    requires Parse(text).Success?
    ensures Accepted(Parse(text).value, false)
  {
    hide Exec, Lines, Accepted;
    NewAccepted(false);
    ExecAccepted(Lines(text), Reading(EMPTY, []), false);
  }
}
