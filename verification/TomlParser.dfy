/** The parser of src/cpptoml.h as an object: a cursor in the current line, the lines not read yet, and the tables
    built so far. Its methods are proved against TomlText, TomlKeys and TomlReader. */
module TomlParser {
  import opened Wrappers
  import opened Decimal
  import opened TomlDates
  import opened TomlText
  import opened TomlKeys
  import opened TomlTree
  import opened TomlReader

  function Add(k: nat, r: Result<nat>): Result<nat> {
    if r.Success? then Success(k + r.value) else Failure
  }

  /** What the digits eaten so far, `k` characters of `s`, leave to be decided. */
  predicate Eaten(s: string, k: nat)
    requires k <= |s|
  {
    if k == 0 then true
    else if k < |s| && IsDigit(s[k]) then EatNumbers(s) == Add(k, EatNumbers(s[k..]))
    else EatNumbers(s) == Success(k)
  }

  lemma EatOne(s: string, k: nat)
    requires k < |s| && IsDigit(s[k])
    ensures EatNumbers(s[k..])
         == if k + 1 < |s| && s[k + 1] == '_' then
              if k + 2 == |s| || !IsDigit(s[k + 2]) then Failure else Add(2, EatNumbers(s[k + 2..]))
            else if k + 1 < |s| && IsDigit(s[k + 1]) then Add(1, EatNumbers(s[k + 1..]))
            else Success(1)
  {
    var t := s[k..];
    assert t[0] == s[k] && |t| == |s| - k;
    if |t| > 1 {
      assert t[1] == s[k + 1] && t[1..] == s[k + 1..];
      if |t| > 2 {
        assert t[2] == s[k + 2] && t[2..] == s[k + 2..];
      }
    }
  }

  lemma EatNone(s: string)
    requires s == "" || !IsDigit(s[0])
    ensures EatNumbers(s) == Failure
  {
  }

  lemma EatenNext(s: string, k: nat)
    requires k < |s| && IsDigit(s[k]) && Eaten(s, k)
    ensures if k + 1 < |s| && s[k + 1] == '_' then
              if k + 2 == |s| || !IsDigit(s[k + 2]) then EatNumbers(s) == Failure else Eaten(s, k + 2)
            else Eaten(s, k + 1)
  {
    hide EatNumbers;
    EatOne(s, k);
    if k == 0 {
      assert s[0..] == s;
    }
  }

  // ---------------------------------------------------------------- reading a name and walking it at once

  /** A name that begins with `first`. */
  function Longer(first: seq<string>, name: Result<(seq<string>, string)>): Result<(seq<string>, string)> {
    match name
    case Failure => Failure
    case Success(n) => Success((first + n.0, n.1))
  }

  /** `root` is what walking `path` makes of `t`. */
  predicate Walked(t: Table, path: seq<string>, root: Table) {
    OpenTable(t, path, true) == Success(root) && TomlTree.At(root, path).Some?
  }

  lemma WalkStarts(t: Table)
    ensures Walked(t, [], t) && TomlTree.At(t, []) == Some(t)
  {
  }

  lemma NameStarts(s: string)
    ensures PathKeys(s) == Longer([], PathKeys(s))
  {
    hide PathKeys;
    if PathKeys(s).Success? {
      assert [] + PathKeys(s).value.0 == PathKeys(s).value.0;
    }
  }

  lemma NameGrows(name: seq<string>, part: string, more: Result<(seq<string>, string)>)
    ensures Longer(name, Longer([part], more)) == Longer(name + [part], more)
  {
    if more.Success? {
      assert name + ([part] + more.value.0) == name + [part] + more.value.0;
    }
  }

  lemma NameEnds(s: string)
    ensures s == "" ==> PathKeys(s) == Failure
    ensures s != "" && s[0] == ']' ==> PathKeys(s) == Success(([], s))
    ensures forall name: seq<string> :: name + [] == name
  {
  }

  /** However a name goes on, it fails where its beginning does. */
  lemma Stuck(t: Table, path: seq<string>, more: Result<(seq<string>, string)>)
    requires OpenTable(t, path, true).Failure?
    ensures more.Success? ==> OpenTable(t, path + more.value.0, false).Failure?
    ensures more.Success? && more.value.0 != [] ==> AppendTable(t, path + more.value.0).Failure?
  {
    hide OpenTable, AppendTable;
    if more.Success? {
      OpenStuck(t, path, more.value.0, false);
    }
  }

  /** Behind the last component of the name of an array. */
  predicate Appended(t: Table, path: seq<string>, root: Table) {
    path != [] && AppendTable(t, path) == Success(root) && TomlTree.At(root, path).Some?
  }

  lemma NameGoesOn(s: string)
    requires s == "" || s[0] != ']'
    ensures PathKeys(s).Success? ==> PathKeys(s).value.0 != []
  {
  }

  class Parser {
    var input: seq<string>
    var line: string
    var pos: nat
    var root: Table
    var cur: seq<string>

    constructor (text: string)
      ensures input == Lines(text) && line == "" && pos == 0 && root == EMPTY && cur == []
    {
      input, line, pos, root, cur := Lines(text), "", 0, EMPTY, [];
    }

    ghost predicate Here()
      reads this`line, this`pos
    {
      pos <= |line|
    }

    ghost function Rest(): string
      requires Here()
      reads this`line, this`pos
    {
      line[pos..]
    }

    ghost function Where(): Place
      requires Here()
      reads this`line, this`pos, this`input
    {
      Place(line[pos..], input)
    }

    method ConsumeWhitespace()
      requires Here()
      modifies this`pos
      ensures Here() && Rest() == SkipBlanks(old(Rest()))
    {
      while pos < |line| && IsBlank(line[pos])
        invariant Here() && SkipBlanks(Rest()) == SkipBlanks(old(Rest()))
      {
        pos := pos + 1;
      }
    }

    /** parse_escape_code at its backslash. */
    method ParseEscapeCode() returns (r: Option<char>)
      requires pos < |line|
      modifies this`pos
      ensures Here()
      ensures old(|line| - pos) == 1 ==> r == None
      ensures old(|line| - pos) > 1 ==> r == EscapeCode(line[old(pos) + 1])
      ensures r.Some? ==> pos == old(pos) + 2
    {
      pos := pos + 1;
      if pos == |line| {
        return None;
      }
      var c := line[pos];
      if c == 'b' {
        r := Some(8 as char);
      } else if c == 't' {
        r := Some('\t');
      } else if c == 'n' {
        r := Some('\n');
      } else if c == 'f' {
        r := Some(12 as char);
      } else if c == 'r' {
        r := Some('\r');
      } else if c == '\"' {
        r := Some('\"');
      } else if c == '\\' {
        r := Some('\\');
      } else {
        return None;
      }
      pos := pos + 1;
    }

    /** string_literal at its opening delimiter. */
    method ReadLiteral(delim: char) returns (r: Result<string>)
      requires pos < |line|
      modifies this`pos
      ensures Here()
      ensures var spec := StringLiteral(old(Rest()), delim);
        (spec == Failure && r == Failure) || (spec.Success? && r == Success(spec.value.0) && Rest() == spec.value.1)
    {
      hide EscapeCode, SkipBlanks;
      ghost var s := Rest();
      pos := pos + 1;
      var val := "";
      while pos < |line|
        invariant Here()
        invariant StringLiteral(s, delim) == LiteralBody(Rest(), delim, val)
        decreases |line| - pos
      {
        assert Rest()[0] == line[pos];
        if delim == '\"' && line[pos] == '\\' {
          assert |Rest()| > 1 ==> Rest()[1] == line[pos + 1] && Rest()[2..] == line[pos + 2..];
          var c := ParseEscapeCode();
          if c == None {
            return Failure;
          }
          val := val + [c.value];
        } else if line[pos] == delim {
          assert Rest()[1..] == line[pos + 1..];
          pos := pos + 1;
          ConsumeWhitespace();
          return Success(val);
        } else {
          assert Rest()[1..] == line[pos + 1..];
          val := val + [line[pos]];
          pos := pos + 1;
        }
      }
      return Failure;
    }

    /** skip_whitespace_and_comments; false at the end of the input. */
    method SkipWhitespaceAndComments() returns (ok: bool)
      requires Here()
      modifies this`pos, this`line, this`input
      ensures Here()
      ensures var spec := SkipLines(old(Where()));
        (spec == Failure && !ok) || (spec.Success? && ok && Where() == spec.value)
      ensures ok ==> pos < |line|
    {
      ghost var p := Where();
      ConsumeWhitespace();
      while pos == |line| || line[pos] == '#'
        invariant Here()
        invariant Rest() == SkipBlanks(Rest()) && SkipLines(p) == SkipLines(Where())
        decreases |input|
      {
        if input == [] {
          return false;
        }
        line, input, pos := input[0], input[1..], 0;
        ConsumeWhitespace();
      }
      return true;
    }

    /** parse_number without the floating-point forms. */
    method ReadNumber() returns (r: Result<Value>)
      requires Here()
      modifies this`pos
      ensures Here()
      ensures var spec := ParseNumber(old(Rest()));
        (spec == Failure && r == Failure) || (spec.Success? && r == Success(spec.value.0) && Rest() == spec.value.1)
    {
      hide EatNumbers, ToInt64, Compact;
      ghost var s := Rest();
      var check := pos;
      if check < |line| && (line[check] == '-' || line[check] == '+') {
        check := check + 1;
      }
      assert s[check - pos..] == line[check..];
      var k := EatAll(check);
      if k == Failure {
        return Failure;
      }
      check := check + k.value;
      assert s[check - pos..] == line[check..] && s[..check - pos] == line[pos..check];
      if check < |line| && (line[check] == '.' || line[check] == 'e' || line[check] == 'E') {
        return Failure;
      }
      var n := ToInt64(Compact(line[pos..check]));
      if n == Failure {
        return Failure;
      }
      pos := check;
      return Success(Int(n.value));
    }

    /** eat_numbers: digits with single underscores between them. */
    method EatAll(start: nat) returns (r: Result<nat>)
      requires start <= |line|
      ensures r == EatNumbers(line[start..])
    {
      hide EatNumbers;
      ghost var s := line[start..];
      var check := start;
      while check < |line| && IsDigit(line[check])
        invariant start <= check <= |line|
        invariant Eaten(s, check - start)
        decreases |line| - check
      {
        EatenNext(s, check - start);
        check := check + 1;
        if check < |line| && line[check] == '_' {
          check := check + 1;
          if check == |line| || !IsDigit(line[check]) {
            return Failure;
          }
        }
      }
      if check == start {
        EatNone(s);
      }
      return if check == start then Failure else Success(check - start);
    }

    /** parse_bare_key on the part of the line before `end`. */
    method ReadBareKey(end: nat) returns (r: Result<string>)
      requires pos <= end <= |line|
      modifies this`pos
      ensures Here()
      ensures r == BareKey(old(line[pos..end])) && (r.Success? ==> pos == end)
    {
      if pos == end {
        return Failure;
      }
      var last := end - 1;
      while last != pos && IsBlank(line[last])
        invariant pos <= last < end
        invariant TrimEnd(line[pos..end]) == TrimEnd(line[pos..last + 1])
      {
        assert line[pos..last + 1][..last - pos] == line[pos..last];
        last := last - 1;
      }
      var key := line[pos..last + 1];
      if exists i :: 0 <= i < |key| && (key[i] == '#' || IsBlank(key[i]) || key[i] == '[' || key[i] == ']') {
        return Failure;
      }
      pos := end;
      return Success(key);
    }

    method ReadKey(stops: set<char>) returns (r: Result<string>)
      requires Here()
      modifies this`pos
      ensures Here()
      ensures var spec := ParseKey(old(Rest()), stops);
        (spec == Failure && r == Failure) || (spec.Success? && r == Success(spec.value.0) && Rest() == spec.value.1)
    {
      hide StringLiteral, BareKey, Until;
      ConsumeWhitespace();
      if pos < |line| && line[pos] == '\"' {
        r := ReadLiteral('\"');
      } else {
        ghost var t := Rest();
        var end := pos + Until(line[pos..], stops);
        assert t[..end - pos] == line[pos..end] && t[end - pos..] == line[end..];
        r := ReadBareKey(end);
      }
    }

    method ReadBool() returns (r: Result<Value>)
      requires pos < |line|
      modifies this`pos
      ensures Here()
      ensures var spec := ParseBool(old(Rest()));
        (spec == Failure && r == Failure) || (spec.Success? && r == Success(spec.value.0) && Rest() == spec.value.1)
    {
      ghost var s := Rest();
      var end := pos + BoolLength(line[pos..]);
      assert s[..end - pos] == line[pos..end] && s[end - pos..] == line[end..];
      var v := line[pos..end];
      pos := end;
      if v == "true" {
        return Success(Bool(true));
      } else if v == "false" {
        return Success(Bool(false));
      } else {
        return Failure;
      }
    }

    /** parse_date: the run of date characters is read as a value. */
    method ReadDate() returns (r: Result<Value>)
      requires Here()
      modifies this`pos
      ensures Here()
      ensures var spec := DateValue(old(Rest()));
        (spec == Failure && r == Failure) || (spec.Success? && r == Success(spec.value.0) && Rest() == spec.value.1)
    {
      hide ParseDateRun;
      ghost var s := Rest();
      var end := pos + DateLength(line[pos..]);
      assert s[..end - pos] == line[pos..end] && s[end - pos..] == line[end..];
      var d := ParseDateRun(line[pos..end]);
      if d == Failure {
        return Failure;
      }
      pos := end;
      return Success(Date(d.value));
    }

    /** parse_string; the multi-line forms are not modelled. */
    method ReadString() returns (r: Result<Value>)
      requires pos < |line|
      modifies this`pos
      ensures Here()
      ensures var spec := ParseString(old(Rest()));
        (spec == Failure && r == Failure) || (spec.Success? && r == Success(spec.value.0) && Rest() == spec.value.1)
    {
      hide StringLiteral;
      var delim := line[pos];
      if pos + 2 < |line| && line[pos + 1] == delim && line[pos + 2] == delim {
        return Failure;
      }
      var v := ReadLiteral(delim);
      return if v == Failure then Failure else Success(Str(v.value));
    }

    /** parse_value */
    method ReadValue() returns (r: Result<Value>)
      requires Here()
      modifies this`pos, this`line, this`input
      ensures Here()
      ensures Outcome(ParseValue(old(Where())), r)
      decreases Size(Where()), 1
    {
      hide KindOf, ParseArray, ParseString, DateValue, ParseNumber, ParseBool, Size;
      if pos == |line| {
        return Failure;
      }
      var kind := KindOf(line[pos..]);
      if kind == Failure {
        return Failure;
      }
      match kind.value
      case KString => r := ReadString();
      case KDate => r := ReadDate();
      case KInt => r := ReadNumber();
      case KBool => r := ReadBool();
      case KArray => r := ReadArray();
      case _ => return Failure;
    }

    /** The value and the place that the specification gives, or failure. */
    ghost predicate Outcome(spec: Result<(Value, Place)>, r: Result<Value>)
      requires Here()
      reads this`line, this`pos, this`input
    {
      (spec == Failure && r == Failure) || (spec.Success? && r == Success(spec.value.0) && Where() == spec.value.1)
    }

    /** parse_array at its opening bracket. */
    method ReadArray() returns (r: Result<Value>)
      requires pos < |line|
      modifies this`pos, this`line, this`input
      ensures Here()
      ensures Outcome(ParseArray(old(Where())), r)
      decreases Size(Where()), 0
    {
      hide KindOf, ParseValues, ParseArrays, SkipLines, FirstValueLength;
      assert Rest()[1..] == line[pos + 1..];
      pos := pos + 1;
      var ok := SkipWhitespaceAndComments();
      if !ok {
        return Failure;
      }
      assert Rest()[1..] == line[pos + 1..];
      if line[pos] == ']' {
        pos := pos + 1;
        return Success(Arr([]));
      }
      assert Rest()[..FirstValueLength(Rest())] == line[pos..][..FirstValueLength(line[pos..])];
      var kind := KindOf(line[pos..][..FirstValueLength(line[pos..])]);
      if kind == Failure {
        return Failure;
      }
      match kind.value
      case KString => r := ReadValueArray(KString);
      case KInt => r := ReadValueArray(KInt);
      case KDate => r := ReadValueArray(KDate);
      case KArray => r := ReadObjectArray();
      case _ => return Failure;
    }

    /** parse_value_array */
    method ReadValueArray(kind: Kind) returns (r: Result<Value>)
      requires Here()
      modifies this`pos, this`line, this`input
      ensures Here()
      ensures Outcome(ParseValues(old(Where()), kind, []), r)
      decreases Size(Where()), 2
    {
      hide ParseValue, SkipLines, KindFor;
      ghost var spec := ParseValues(Where(), kind, []);
      var arr := [];
      while pos < |line| && line[pos] != ']'
        invariant Here()
        invariant Size(Where()) <= Size(old(Where()))
        invariant spec == ParseValues(Where(), kind, arr)
        decreases Size(Where())
      {
        var v := ReadValue();
        if v == Failure || KindFor(v.value) != kind {
          return Failure;
        }
        arr := arr + [v.value];
        var ok := SkipWhitespaceAndComments();
        if !ok {
          return Failure;
        }
        assert Rest()[1..] == line[pos + 1..];
        if line[pos] != ',' {
          assert spec == Success((Arr(arr), Place(line[pos + 1..], input)));
          pos := pos + 1;
          return Success(Arr(arr));
        }
        pos := pos + 1;
        ok := SkipWhitespaceAndComments();
        if !ok {
          return Failure;
        }
      }
      if pos < |line| {
        assert Rest()[1..] == line[pos + 1..];
        pos := pos + 1;
      }
      return Success(Arr(arr));
    }

    /** parse_object_array for arrays of arrays. */
    method ReadObjectArray() returns (r: Result<Value>)
      requires Here()
      modifies this`pos, this`line, this`input
      ensures Here()
      ensures Outcome(ParseArrays(old(Where()), []), r)
      decreases Size(Where()), 2
    {
      hide ParseArray, SkipLines;
      ghost var spec := ParseArrays(Where(), []);
      var arr := [];
      while pos < |line| && line[pos] != ']'
        invariant Here()
        invariant Size(Where()) <= Size(old(Where()))
        invariant spec == ParseArrays(Where(), arr)
        decreases Size(Where())
      {
        if line[pos] != '[' {
          return Failure;
        }
        var v := ReadArray();
        if v == Failure {
          return Failure;
        }
        arr := arr + [v.value];
        var ok := SkipWhitespaceAndComments();
        if !ok {
          return Failure;
        }
        assert Rest()[1..] == line[pos + 1..];
        if line[pos] != ',' {
          if line[pos] != ']' {
            return Failure;
          }
          pos := pos + 1;
          return Success(Arr(arr));
        }
        pos := pos + 1;
        ok := SkipWhitespaceAndComments();
        if !ok {
          return Failure;
        }
      }
      if pos == |line| {
        return Failure;
      }
      assert Rest()[1..] == line[pos + 1..];
      pos := pos + 1;
      return Success(Arr(arr));
    }

    /** The current table is there. */
    ghost predicate Seated()
      reads this`root, this`cur
    {
      TomlTree.At(root, cur).Some?
    }

    /** One component of a table name, and the dot behind it; an empty one is refused. */
    method ReadPart() returns (r: Result<string>)
      requires pos < |line| && line[pos] != ']'
      modifies this`pos
      ensures Here()
      ensures PathKeys(old(Rest())) == if r == Failure then Failure else Longer([r.value], PathKeys(Rest()))
      ensures r.Success? ==> |Rest()| < |old(Rest())|
    {
      hide ParseKey, SkipBlanks;
      var part := ReadKey({'.', ']'});
      if part == Failure || part.value == "" {
        return Failure;
      }
      ConsumeWhitespace();
      if pos < |line| && line[pos] == '.' {
        assert Rest()[1..] == line[pos + 1..];
        pos := pos + 1;
      }
      ConsumeWhitespace();
      return part;
    }

    /** Goes down to the table under `part`, or creates it. */
    method Descend(part: string) returns (ok: bool, created: bool)
      requires Seated()
      modifies this`root, this`cur
      ensures ok ==> Seated() && cur == old(cur) + [part]
      ensures var x := TomlTree.At(old(root), old(cur)).value.entries;
        && created == (part !in x)
        && ok == (part !in x || Down(x[part]).Some?)
        && root == if created then Put(old(root), old(cur), Table(x[part := Sub(EMPTY)])) else old(root)
    {
      hide Put, TomlTree.At;
      var x := TomlTree.At(root, cur).value.entries;
      created := part !in x;
      ghost var before := root;
      if created {
        root := Put(root, cur, Table(x[part := Sub(EMPTY)]));
      } else if Down(x[part]).None? {
        return false, created;
      }
      AtNext(root, cur, part);
      cur := cur + [part];
      return true, created;
    }

    /** parse_single_table behind its bracket: names are looked up while they are read. */
    method ReadTable() returns (ok: bool)
      requires Here() && cur == []
      modifies this`pos, this`root, this`cur
      ensures Here()
      ensures var spec := TableHeader(old(Rest()), old(root));
        (spec == Failure && !ok) || (spec.Success? && ok && Reading(root, cur) == spec.value)
    {
      hide PathKeys, OpenTable, Put, TomlTree.At, SkipBlanks, Defined;
      ghost var s, before := Rest(), root;
      if pos == |line| || line[pos] == ']' {
        return false;
      }
      WalkStarts(root);
      NameStarts(s);
      var inserted := false;
      while pos < |line| && line[pos] != ']'
        invariant Here() && Walked(before, cur, root)
        invariant PathKeys(s) == Longer(cur, PathKeys(Rest()))
        invariant inserted == TomlTree.At(before, cur).None? && (!inserted ==> root == before)
        decreases |line| - pos
      {
        ghost var name := cur;
        var part := ReadPart();
        if part == Failure {
          return false;
        }
        NameGrows(name, part.value, PathKeys(Rest()));
        OpenNext(before, cur, part.value);
        AtNext(before, cur, part.value);
        var down, created := Descend(part.value);
        if !down {
          Stuck(before, name + [part.value], PathKeys(Rest()));
          return false;
        }
        inserted := inserted || created;
      }
      NameEnds(Rest());
      OpenChecked(before, cur);
      if pos == |line| || (!inserted && Defined(TomlTree.At(root, cur).value)) {
        return false;
      }
      assert Rest()[1..] == line[pos + 1..];
      pos := pos + 1;
      ConsumeWhitespace();
      ok := pos == |line| || line[pos] == '#';
    }

    /** Appends an empty table to the array under `part`, which may be new. */
    method Append(part: string) returns (ok: bool)
      requires Seated()
      modifies this`root, this`cur
      ensures ok ==> Seated() && cur == old(cur) + [part]
      ensures var x := TomlTree.At(old(root), old(cur)).value;
        && ok == Tables(x, part).Some?
        && (ok ==> root == Put(old(root), old(cur), Table(x.entries[part := Many(Tables(x, part).value + [EMPTY])])))
    {
      hide Put, TomlTree.At;
      var x := TomlTree.At(root, cur).value.entries;
      var n := Many([EMPTY]);
      if part in x {
        if !x[part].Many? {
          return false;
        }
        n := Many(x[part].ts + [EMPTY]);
      } else {
        assert [] + [EMPTY] == [EMPTY];
      }
      root := Put(root, cur, Table(x[part := n]));
      AtNext(root, cur, part);
      cur := cur + [part];
      return true;
    }

    /** parse_table_array behind its brackets. */
    method ReadSeries() returns (ok: bool)
      requires Here() && cur == []
      modifies this`pos, this`root, this`cur
      ensures Here()
      ensures var spec := SeriesHeader(old(Rest()), old(root));
        (spec == Failure && !ok) || (spec.Success? && ok && Reading(root, cur) == spec.value)
    {
      hide PathKeys, OpenTable, AppendTable, Put, TomlTree.At, SkipBlanks;
      ghost var s, before := Rest(), root;
      if pos == |line| || line[pos] == ']' {
        return false;
      }
      WalkStarts(root);
      NameStarts(s);
      while pos < |line| && line[pos] != ']'
        invariant Here()
        invariant if pos < |line| && line[pos] == ']' then Appended(before, cur, root) else Walked(before, cur, root)
        invariant PathKeys(s) == Longer(cur, PathKeys(Rest()))
        decreases |line| - pos
      {
        ghost var name := cur;
        var part := ReadPart();
        if part == Failure {
          return false;
        }
        NameGrows(name, part.value, PathKeys(Rest()));
        NameEnds(Rest());
        if pos < |line| && line[pos] == ']' {
          AppendNext(before, cur, part.value);
          var added := Append(part.value);
          if !added {
            return false;
          }
        } else {
          OpenNext(before, cur, part.value);
          var down, created := Descend(part.value);
          if !down {
            Stuck(before, name + [part.value], PathKeys(Rest()));
            NameGoesOn(Rest());
            return false;
          }
        }
      }
      NameEnds(Rest());
      if pos == |line| {
        return false;
      }
      assert |Rest()| >= 2 ==> Rest()[2..] == line[pos + 2..];
      pos := pos + 1;
      if pos == |line| {
        return false;
      }
      pos := pos + 1;
      ConsumeWhitespace();
      ok := pos == |line| || line[pos] == '#';
    }

    /** parse_table behind the first bracket. */
    method ReadHeader() returns (ok: bool)
      requires Here() && cur == []
      modifies this`pos, this`root, this`cur
      ensures Here()
      ensures var spec := Header(old(Rest()), old(root));
        (spec == Failure && !ok) || (spec.Success? && ok && Reading(root, cur) == spec.value)
    {
      hide TableHeader, SeriesHeader;
      if pos == |line| {
        return false;
      }
      if line[pos] == '[' {
        assert Rest()[1..] == line[pos + 1..];
        pos := pos + 1;
        ok := ReadSeries();
      } else {
        ok := ReadTable();
      }
    }

    /** parse_key_value, and the check that the line ends there. */
    method ReadKeyValue() returns (ok: bool)
      requires Here() && Seated()
      modifies this`pos, this`line, this`input, this`root
      ensures Here()
      ensures var spec := KeyValue(old(Rest()), old(input), Reading(old(root), old(cur)));
        (spec == Failure && !ok) || (spec.Success? && ok && (Reading(root, cur), input) == spec.value)
    {
      hide ParseKey, ParseValue, SkipBlanks, Put, TomlTree.At;
      ghost var st := Reading(root, cur);
      var key := ReadKey({'='});
      if key == Failure || key.value in TomlTree.At(root, cur).value.entries {
        return false;
      }
      if pos == |line| || line[pos] != '=' {
        return false;
      }
      assert Rest()[1..] == line[pos + 1..];
      pos := pos + 1;
      ConsumeWhitespace();
      var v := ReadValue();
      if v == Failure {
        return false;
      }
      root := Put(root, cur, Table(TomlTree.At(root, cur).value.entries[key.value := Leaf(v.value)]));
      ConsumeWhitespace();
      ok := pos == |line| || line[pos] == '#';
    }

    /** parse */
    method ReadAll() returns (r: Result<Table>)
      requires Seated()
      modifies this
      ensures var spec := Exec(old(input), Reading(old(root), old(cur)));
        r == if spec == Failure then Failure else Success(spec.value.root)
    {
      hide Header, KeyValue, SkipBlanks, Put, TomlTree.At;
      ghost var spec := Exec(input, Reading(root, cur));
      while input != []
        invariant Seated() && spec == Exec(input, Reading(root, cur))
        decreases |input|
      {
        line, input, pos := input[0], input[1..], 0;
        ConsumeWhitespace();
        if pos == |line| || line[pos] == '#' {
          continue;
        }
        if line[pos] == '[' {
          assert Rest()[1..] == line[pos + 1..];
          cur := [];
          pos := pos + 1;
          var ok := ReadHeader();
          if !ok {
            return Failure;
          }
        } else {
          var ok := ReadKeyValue();
          if !ok {
            return Failure;
          }
        }
      }
      return Success(root);
    }
  }

  /** Reading a whole text. */
  method ParseText(text: string) returns (r: Result<Table>)
    ensures r == Parse(text)
  {
    var p := new Parser(text);
    WalkStarts(EMPTY);
    r := p.ReadAll();
  }
}
