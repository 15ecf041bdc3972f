/** Comment lines and empty lines may stand anywhere in a text of src/cpptoml.h. */
module TomlComments {
  import opened Wrappers
  import opened TomlText
  import opened TomlKeys
  import opened TomlTree
  import opened TomlReader

  /** Nothing but blanks, or a comment behind them. */
  predicate IsIdle(line: string) {
    SkipBlanks(line) == "" || SkipBlanks(line)[0] == '#'
  }

  /** A comment: blanks, a number sign and any characters. */
  lemma CommentIsIdle(blanks: string, comment: string)
    requires forall i :: 0 <= i < |blanks| ==> IsBlank(blanks[i])
    ensures IsIdle(blanks) && IsIdle(blanks + ("#" + comment))
  {
    if blanks == "" {
      assert blanks + ("#" + comment) == "#" + comment;
    } else {
      assert (blanks + ("#" + comment))[1..] == blanks[1..] + ("#" + comment);
      CommentIsIdle(blanks[1..], comment);
    }
  }

  /** `more` is `lines` with any number of idle lines between, before and behind them. */
  ghost predicate Loosens(more: seq<string>, lines: seq<string>) {
    if more == [] then lines == []
    else
      || (IsIdle(more[0]) && Loosens(more[1..], lines))
      || (lines != [] && more[0] == lines[0] && Loosens(more[1..], lines[1..]))
  }

  lemma {:induction false} LoosensItself(lines: seq<string>)
    ensures Loosens(lines, lines)
  {
    if lines != [] {
      LoosensItself(lines[1..]);
    }
  }

  /** The same value, the same rest of a line, and the same lines but for idle ones. */
  ghost predicate SamePlace(p: Place, q: Place) {
    p.text == q.text && Loosens(p.lines, q.lines)
  }

  ghost predicate SameValue(r: Result<(Value, Place)>, s: Result<(Value, Place)>) {
    && (r.Success? <==> s.Success?)
    && (r.Success? ==> r.value.0 == s.value.0 && SamePlace(r.value.1, s.value.1))
  }

  ghost predicate SameSkip(r: Result<Place>, s: Result<Place>) {
    && (r.Success? <==> s.Success?)
    && (r.Success? ==> SamePlace(r.value, s.value))
  }

  /** When the line is used up the next line decides. */
  lemma UsedUp(text: string, lines: seq<string>)
    requires IsIdle(text)
    ensures SkipLines(Place(text, lines))
         == if lines == [] then Failure else SkipLines(Place(lines[0], lines[1..]))
  {
    hide SkipBlanks;
  }

  lemma {:induction false} SkipIdle(t: string, t': string, more: seq<string>, lines: seq<string>)
    requires IsIdle(t) && IsIdle(t') && Loosens(more, lines)
    ensures SameSkip(SkipLines(Place(t, more)), SkipLines(Place(t', lines)))
    decreases |more|, 0
  {
    hide SkipLines, IsIdle;
    UsedUp(t, more);
    UsedUp(t', lines);
    if more != [] {
      if IsIdle(more[0]) && Loosens(more[1..], lines) {
        SkipIdle(more[0], t', more[1..], lines);
      } else {
        SkipSame(Place(more[0], more[1..]), Place(lines[0], lines[1..]));
      }
    }
  }

  lemma {:induction false} SkipSame(p: Place, q: Place)
    requires SamePlace(p, q)
    ensures SameSkip(SkipLines(p), SkipLines(q))
    decreases |p.lines|, 1
  {
    hide SkipBlanks;
    if !IsIdle(p.text) {
      assert SkipLines(p) == Success(Place(SkipBlanks(p.text), p.lines));
      assert SkipLines(q) == Success(Place(SkipBlanks(p.text), q.lines));
    } else {
      SkipIdle(p.text, q.text, p.lines, q.lines);
    }
  }

  // ---------------------------------------------------------------- values over several lines

  lemma OnLineSame(p: Place, q: Place, r: Result<(Value, string)>)
    requires SamePlace(p, q)
    ensures SameValue(OnLine(p, r), OnLine(q, r))
  {
  }

  /** A value reads the same. */
  lemma {:induction false} ValueSame(p: Place, q: Place)
    requires SamePlace(p, q)
    ensures SameValue(ParseValue(p), ParseValue(q))
    decreases Size(p), 1
  {
    hide KindOf, ParseArray, ParseString, DateValue, ParseNumber, ParseBool, SameValue, OnLine;
    FailuresSame();
    if p.text != "" && KindOf(p.text).Success? {
      match KindOf(p.text).value
      case KString => OnLineSame(p, q, ParseString(p.text));
      case KDate => OnLineSame(p, q, DateValue(p.text));
      case KInt => OnLineSame(p, q, ParseNumber(p.text));
      case KBool => OnLineSame(p, q, ParseBool(p.text));
      case KArray => ArraySame(p, q);
      case KFloat =>
      case KInlineTable =>
    }
  }

  lemma FailuresSame()
    ensures SameValue(Failure, Failure)
  {
  }

  lemma PlaceBehind(p: Place, q: Place)
    requires SamePlace(p, q) && p.text != ""
    ensures SamePlace(Place(p.text[1..], p.lines), Place(q.text[1..], q.lines))
    ensures Size(Place(p.text[1..], p.lines)) < Size(p)
  {
  }

  lemma {:induction false} ArraySame(p: Place, q: Place)
    requires SamePlace(p, q) && p.text != ""
    ensures SameValue(ParseArray(p), ParseArray(q))
    decreases Size(p), 0
  {
    hide KindOf, ParseValues, ParseArrays, SkipLines, Size, FirstValueLength, Loosens;
    var p1, q1 := Place(p.text[1..], p.lines), Place(q.text[1..], q.lines);
    PlaceBehind(p, q);
    SkipSame(p1, q1);
    if SkipLines(p1).Success? {
      var p2, q2 := SkipLines(p1).value, SkipLines(q1).value;
      var kind := KindOf(p2.text[..FirstValueLength(p2.text)]);
      if p2.text[0] != ']' && kind.Success? {
        if kind.value.KArray? {
          ArraysSame(p2, q2, []);
        } else {
          ItemsSame(p2, q2, kind.value, []);
        }
      }
    }
  }

  lemma {:induction false} ItemsSame(p: Place, q: Place, kind: Kind, vs: seq<Value>)
    requires SamePlace(p, q)
    ensures SameValue(ParseValues(p, kind, vs), ParseValues(q, kind, vs))
    decreases Size(p), 2
  {
    hide ParseValue, SkipLines, Size, Loosens;
    if p.text != "" && p.text[0] != ']' {
      ValueSame(p, q);
      var v, w := ParseValue(p), ParseValue(q);
      if v.Success? && KindFor(v.value.0) == kind {
        SkipSame(v.value.1, w.value.1);
        var p1, q1 := SkipLines(v.value.1), SkipLines(w.value.1);
        if p1.Success? && p1.value.text[0] == ',' {
          PlaceBehind(p1.value, q1.value);
          var p2, q2 := Place(p1.value.text[1..], p1.value.lines), Place(q1.value.text[1..], q1.value.lines);
          SkipSame(p2, q2);
          if SkipLines(p2).Success? {
            ItemsSame(SkipLines(p2).value, SkipLines(q2).value, kind, vs + [v.value.0]);
          }
        }
      }
    }
  }

  lemma {:induction false} ArraysSame(p: Place, q: Place, vs: seq<Value>)
    requires SamePlace(p, q)
    ensures SameValue(ParseArrays(p, vs), ParseArrays(q, vs))
    decreases Size(p), 2
  {
    hide ParseArray, SkipLines, Size, Loosens;
    if p.text != "" && p.text[0] == '[' {
      ArraySame(p, q);
      var v, w := ParseArray(p), ParseArray(q);
      if v.Success? {
        SkipSame(v.value.1, w.value.1);
        var p1, q1 := SkipLines(v.value.1), SkipLines(w.value.1);
        if p1.Success? && p1.value.text[0] == ',' {
          PlaceBehind(p1.value, q1.value);
          var p2, q2 := Place(p1.value.text[1..], p1.value.lines), Place(q1.value.text[1..], q1.value.lines);
          SkipSame(p2, q2);
          if SkipLines(p2).Success? {
            ArraysSame(SkipLines(p2).value, SkipLines(q2).value, vs + [v.value.0]);
          }
        }
      }
    }
  }

  // ---------------------------------------------------------------- whole texts

  ghost predicate SameItem(r: Result<(Reading, seq<string>)>, s: Result<(Reading, seq<string>)>) {
    && (r.Success? <==> s.Success?)
    && (r.Success? ==> r.value.0 == s.value.0 && Loosens(r.value.1, s.value.1))
  }

  lemma ItemSame(s: string, more: seq<string>, lines: seq<string>, st: Reading)
    requires Valid(st) && Loosens(more, lines)
    ensures SameItem(KeyValue(s, more, st), KeyValue(s, lines, st))
  {
    hide ParseKey, ParseValue, Insert, Loosens, SkipBlanks, LineEnds;
    var part := ParseKey(s, {'='});
    if part.Success? && part.value.1 != "" {
      var text := SkipBlanks(part.value.1[1..]);
      ValueSame(Place(text, more), Place(text, lines));
    }
  }

  /** Idle lines may be put anywhere in any text, within arrays too: it reads the same or fails the same. */
  lemma {:induction false} IdleLines(more: seq<string>, lines: seq<string>, st: Reading)
    requires Valid(st) && Loosens(more, lines)
    ensures Exec(more, st) == Exec(lines, st)
    decreases |more|
  {
    hide Header, KeyValue, SkipBlanks;
    if more != [] {
      if IsIdle(more[0]) && Loosens(more[1..], lines) {
        IdleLines(more[1..], lines, st);
      } else {
        var s := SkipBlanks(more[0]);
        if IsIdle(more[0]) {
          IdleLines(more[1..], lines[1..], st);
        } else if s[0] == '[' {
          if Header(s[1..], st.root).Success? {
            IdleLines(more[1..], lines[1..], Header(s[1..], st.root).value);
          }
        } else {
          ItemSame(s, more[1..], lines[1..], st);
          var next, next' := KeyValue(s, more[1..], st), KeyValue(s, lines[1..], st);
          if next.Success? {
            IdleLines(next.value.1, next'.value.1, next.value.0);
          }
        }
      }
    }
  }

  /** The same of whole texts. */
  lemma CommentsAnywhere(text: string, plain: string)
    requires Loosens(Lines(text), Lines(plain))
    ensures Parse(text) == Parse(plain)
  {
    hide Exec, Lines, Loosens;
    IdleLines(Lines(text), Lines(plain), Reading(EMPTY, []));
  }

  /** One idle line between any others. */
  lemma {:induction false} OneIdleLine(a: seq<string>, idle: string, b: seq<string>)
    requires IsIdle(idle)
    ensures Loosens(a + [idle] + b, a + b)
  {
    hide IsIdle;
    if a == [] {
      assert [] + [idle] + b == [idle] + b && [] + b == b;
      assert ([idle] + b)[1..] == b;
      LoosensItself(b);
    } else {
      OneIdleLine(a[1..], idle, b);
      assert (a + [idle] + b)[1..] == a[1..] + [idle] + b;
      assert (a + b)[1..] == a[1..] + b;
    }
  }
}
