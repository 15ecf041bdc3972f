/** Keys and table paths of src/cpptoml.h: how they are written and read. */
module TomlKeys {
  import opened Wrappers
  import opened TomlText

  // ---------------------------------------------------------------- writing

  /** The characters that the writer leaves unquoted. */
  predicate IsBareChar(c: char) {
    'A' <= c <= 'Z' || 'a' <= c <= 'z' || '0' <= c <= '9' || c == '_' || c == '-'
  }

  predicate IsBare(k: string) {
    forall i :: 0 <= i < |k| ==> IsBareChar(k[i])
  }

  function KeyText(k: string): string {
    if IsBare(k) then k else Quoted(k)
  }

  function PathText(path: seq<string>): string {
    if path == [] then ""
    else KeyText(path[0]) + (if |path| == 1 then "" else ".") + PathText(path[1..])
  }

  // ---------------------------------------------------------------- reading

  /** find_if: how many characters stand before the first of `stops`. */
  function Until(s: string, stops: set<char>): (n: nat)
    ensures n <= |s|
  {
    if s == "" || s[0] in stops then 0 else 1 + Until(s[1..], stops)
  }

  function TrimEnd(s: string): (t: string)
    ensures t <= s && (s != "" ==> t != "")
  {
    if |s| > 1 && IsBlank(s[|s| - 1]) then TrimEnd(s[..|s| - 1]) else s
  }

  /** parse_bare_key */
  function BareKey(s: string): (r: Result<string>)
    ensures r.Success? ==> s != "" && r.value != ""
  {
    var k := TrimEnd(s);
    if s != "" && forall i :: 0 <= i < |k| ==> k[i] != '#' && !IsBlank(k[i]) && k[i] != '[' && k[i] != ']' then
      Success(k)
    else Failure
  }

  /** parse_key: the key and the rest of the line. */
  function ParseKey(s: string, stops: set<char>): (r: Result<(string, string)>)
    ensures r.Success? ==> |r.value.1| < |s|
  {
    var t := SkipBlanks(s);
    if t != "" && t[0] == '\"' then StringLiteral(t, '\"')
    else
      var n := Until(t, stops);
      var k :- BareKey(t[..n]);
      Success((k, t[n..]))
  }

  /** Behind a component of a path: blanks, and a dot if there is one. */
  function SkipDot(s: string): (t: string)
    ensures |t| <= |s|
  {
    var t := SkipBlanks(s);
    SkipBlanks(if t != "" && t[0] == '.' then t[1..] else t)
  }

  /** The components of a table name up to its closing bracket. */
  function PathKeys(s: string): (r: Result<(seq<string>, string)>)
    ensures r.Success? ==> r.value.1 != "" && r.value.1[0] == ']' && |r.value.1| <= |s|
    ensures r.Success? && s[0] != ']' ==> r.value.0 != []
    decreases |s|
  {
    if s == "" then Failure
    else if s[0] == ']' then Success(([], s))
    else
      var part :- ParseKey(s, {'.', ']'});
      if part.0 == "" then Failure
      else
        var more :- PathKeys(SkipDot(part.1));
        Success(([part.0] + more.0, more.1))
  }

  // ---------------------------------------------------------------- reading what was written

  /** What stops a bare key is neither part of one nor blank. */
  predicate Stops(stops: set<char>) {
    forall c :: c in stops ==> !IsBareChar(c) && !IsBlank(c)
  }

  lemma {:induction false} UntilIs(s: string, tail: string, stops: set<char>)
    requires forall i :: 0 <= i < |s| ==> s[i] !in stops
    requires tail != "" && tail[0] in stops
    ensures Until(s + tail, stops) == |s|
  {
    if s == "" {
      assert s + tail == tail;
    } else {
      assert (s + tail)[1..] == s[1..] + tail;
      UntilIs(s[1..], tail, stops);
    }
  }

  lemma BareReads(k: string, gap: string)
    requires k != "" && IsBare(k) && (gap == "" || gap == " ")
    ensures BareKey(k + gap) == Success(k)
  {
    assert IsBareChar(k[|k| - 1]);
    assert (k + " ")[..|k|] == k && k + "" == k;
    assert TrimEnd(k) == k;
    assert TrimEnd(k + gap) == k;
  }

  /** Any non-empty key is read back, up to one of the characters that end it. */
  lemma KeyReads(k: string, gap: string, tail: string, stops: set<char>)
    requires k != "" && (gap == "" || gap == " ") && tail != "" && tail[0] in stops && Stops(stops)
    ensures ParseKey(KeyText(k) + (gap + tail), stops) == Success((k, tail))
    ensures KeyText(k) != "" && !IsBlank(KeyText(k)[0]) && KeyText(k)[0] !in {'#', '[', ']'}
  {
    hide StringLiteral, Escape, BareKey, Until;
    var text := KeyText(k) + (gap + tail);
    if IsBare(k) {
      assert IsBareChar(k[0]) && text[0] == k[0];
      BareReads(k, gap);
      assert text == (k + gap) + tail;
      UntilIs(k + gap, tail, stops);
      assert text[..|k + gap|] == k + gap && text[|k + gap|..] == tail;
    } else {
      QuotedReads(k, gap + tail);
      assert gap == " " ==> (gap + tail)[1..] == tail;
      assert gap == "" ==> gap + tail == tail;
      assert SkipBlanks(tail) == tail;
    }
  }

  predicate NonEmpty(path: seq<string>) {
    forall i :: 0 <= i < |path| ==> path[i] != ""
  }

  /** The text behind the first component of a path. */
  function BehindKey(path: seq<string>, tail: string): string {
    if path == [] then tail else "." + (PathText(path) + tail)
  }

  lemma Dotted(key: string, more: string, tail: string)
    ensures key + "." + more + tail == key + ("." + (more + tail))
  {
  }

  lemma PathUnfolds(path: seq<string>, tail: string)
    requires path != []
    ensures PathText(path) + tail == KeyText(path[0]) + BehindKey(path[1..], tail)
  {
    hide KeyText;
    if |path| == 1 {
      assert PathText(path[1..]) == "";
      assert KeyText(path[0]) + "" + "" == KeyText(path[0]);
    } else {
      Dotted(KeyText(path[0]), PathText(path[1..]), tail);
    }
  }

  lemma {:induction false} PathStarts(path: seq<string>, tail: string)
    requires NonEmpty(path) && tail != "" && tail[0] == ']'
    ensures var text := PathText(path) + tail; text != "" && !IsBlank(text[0]) && text[0] != '[' && text[0] != '#'
    ensures path != [] ==> (PathText(path) + tail)[0] != ']'
  {
    hide KeyText;
    if path != [] {
      PathUnfolds(path, tail);
      KeyReads(path[0], "", "]", {']'});
    }
  }

  lemma DotSkipped(path: seq<string>, tail: string)
    requires NonEmpty(path) && tail != "" && tail[0] == ']'
    ensures SkipDot(BehindKey(path, tail)) == PathText(path) + tail
  {
    hide KeyText;
    var more := PathText(path) + tail;
    PathStarts(path, tail);
    assert SkipBlanks(more) == more;
    if path == [] {
      assert more == tail;
    } else {
      assert ("." + more)[1..] == more;
      assert SkipBlanks("." + more) == "." + more;
    }
  }

  /** Any path of non-empty keys is read back. */
  lemma {:induction false} PathReads(path: seq<string>, tail: string)
    requires NonEmpty(path) && tail != "" && tail[0] == ']'
    ensures PathKeys(PathText(path) + tail) == Success((path, tail))
  {
    hide ParseKey, KeyText, BehindKey, SkipDot;
    var text := PathText(path) + tail;
    if path == [] {
      assert text == tail;
    } else {
      PathReads(path[1..], tail);
      PathUnfolds(path, tail);
      PathStarts(path, tail);
      DotSkipped(path[1..], tail);
      BehindStarts(path[1..], tail);
      var behind := BehindKey(path[1..], tail);
      assert "" + behind == behind;
      KeyReads(path[0], "", behind, {'.', ']'});
      assert [path[0]] + path[1..] == path;
    }
  }

  lemma BehindStarts(path: seq<string>, tail: string)
    requires tail != "" && tail[0] == ']'
    ensures BehindKey(path, tail) != "" && BehindKey(path, tail)[0] in {'.', ']'}
  {
  }
}
