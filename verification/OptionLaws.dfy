/** Laws of the command-line syntax that users rely on: letters may be bundled, and an argument may be
    attached to its option or follow it. */
module OptionLaws {
  import opened Wrappers
  import opened OptionSyntax

  /** A letter that is an option and takes no argument. */
  predicate IsFlag(sx: Syntax, c: char) {
    var at := IndexOf(sx.options, c);
    && c != ':' && c != '-' && at < |sx.options|
    && At(sx.options, at + 1) != ':' && !(c == 'W' && At(sx.options, at + 1) == ';')
  }

  /** A letter that requires an argument. */
  predicate RequiresArgument(sx: Syntax, c: char) {
    var at := IndexOf(sx.options, c);
    && c != ':' && c != '-' && at < |sx.options|
    && At(sx.options, at + 1) == ':' && At(sx.options, at + 2) != ':'
  }

  function FlagLog(letters: string): (log: seq<(int, Option<string>)>)
    ensures |log| == |letters|
  {
    if letters == "" then [] else [(letters[0] as int, None)] + FlagLog(letters[1..])
  }

  /** Bundled letters are reported one by one, exactly as the letters of separate words would be. */
  lemma {:induction false} BundledLetters(sx: Syntax, args: seq<string>, ind: nat, off: nat)
    requires ind < |args| && 0 < off < |args[ind]|
    requires forall k :: off <= k < |args[ind]| ==> IsFlag(sx, args[ind][k])
    ensures Log(Reports(sx, args, Cursor(ind, off)))
         == FlagLog(args[ind][off..]) + Log(Reports(sx, args, Cursor(ind + 1, 0)))
    decreases |args[ind]| - off
  {
    hide NextCall, IsFlag;
    var c := Cursor(ind, off);
    FlagReading(sx, args, ind, off);
    ReportsUnfold(sx, args, c);
    assert args[ind][off..] == [args[ind][off]] + args[ind][off + 1..];
    if off + 1 < |args[ind]| {
      BundledLetters(sx, args, ind, off + 1);
      var a, b, d := FlagLog(args[ind][off..])[..1], FlagLog(args[ind][off + 1..]),
                     Log(Reports(sx, args, Cursor(ind + 1, 0)));
      assert a + b + d == a + (b + d);
    }
  }

  lemma FlagReading(sx: Syntax, args: seq<string>, ind: nat, off: nat)
    requires ind < |args| && 0 < off < |args[ind]| && IsFlag(sx, args[ind][off])
    ensures NextCall(sx, args, Cursor(ind, off))
         == Report(Cursor(ind, off), Reading(args[ind][off] as int, None, None, None, None, Behind(args, ind, off)))
  {
  }

  /** A word of letters is opened behind its dash. */
  lemma OpenedBehindDash(sx: Syntax, args: seq<string>, ind: nat)
    requires ind < |args| && |args[ind]| > 1 && args[ind][0] == '-' && args[ind] != "--"
    ensures NextCall(sx, args, Cursor(ind, 0)).Report?
    ensures NextCall(sx, args, Cursor(ind, 0)).reading == ReadOption(sx, args, Cursor(ind, 1))
  {
  }

  /** The letters of one word report what the same letters report as separate words. */
  lemma {:induction false} BundlingLaw(sx: Syntax, letters: string, words: seq<string>)
    requires letters != "" && |words| == |letters|
    requires forall k :: 0 <= k < |letters| ==> IsFlag(sx, letters[k]) && words[k] == ['-', letters[k]]
    ensures Log(Reports(sx, ["-" + letters], Cursor(0, 0))) == Log(Reports(sx, words, Cursor(0, 0)))
  {
    var word := ["-" + letters];
    assert IsFlag(sx, letters[0]) && word[0][1] == letters[0];
    OpenedBehindDash(sx, word, 0);
    assert ReadOption(sx, word, Cursor(0, 1)) == NextCall(sx, word, Cursor(0, 1)).reading;
    ReportsUnfold(sx, word, Cursor(0, 0));
    ReportsUnfold(sx, word, Cursor(0, 1));
    forall k | 1 <= k < |word[0]|
      ensures IsFlag(sx, word[0][k])
    {
      assert word[0][k] == letters[k - 1];
    }
    BundledLetters(sx, word, 0, 1);
    assert word[0][1..] == letters;
    SeparateLetters(sx, letters, words, 0);
    assert letters[0..] == letters;
  }

  lemma {:induction false} SeparateLetters(sx: Syntax, letters: string, words: seq<string>, i: nat)
    requires |words| == |letters| && i <= |words|
    requires forall k :: 0 <= k < |letters| ==> IsFlag(sx, letters[k]) && words[k] == ['-', letters[k]]
    ensures Log(Reports(sx, words, Cursor(i, 0))) == FlagLog(letters[i..])
    decreases |words| - i
  {
    ReportsUnfold(sx, words, Cursor(i, 0));
    if i < |words| {
      OpenedBehindDash(sx, words, i);
      FlagReading(sx, words, i, 1);
      SeparateLetters(sx, letters, words, i + 1);
      assert letters[i..] == [letters[i]] + letters[i + 1..];
    }
  }

  /** An argument may be attached to its letter or be the next word: the report is the same. */
  lemma AttachedOrSeparate(sx: Syntax, c: char, value: string, rest: seq<string>)
    requires RequiresArgument(sx, c) && value != ""
    ensures var attached := NextCall(sx, [['-', c] + value] + rest, Cursor(0, 0));
            var separate := NextCall(sx, [['-', c], value] + rest, Cursor(0, 0));
            && attached.Report? && separate.Report?
            && attached.reading.(next := Cursor(0, 0)) == separate.reading.(next := Cursor(0, 0))
                 == Reading(c as int, Some(value), None, None, None, Cursor(0, 0))
            && attached.reading.next == Cursor(1, 0) && separate.reading.next == Cursor(2, 0)
  {
    var a, s := [['-', c] + value] + rest, [['-', c], value] + rest;
    assert a[0][2..] == value;
    OpenedBehindDash(sx, a, 0);
    OpenedBehindDash(sx, s, 0);
    assert s[1] == value;
  }

  /** The same for long options: `--name=value` and `--name value`. */
  lemma LongAttachedOrSeparate(sx: Syntax, name: string, value: string, rest: seq<string>)
    requires '=' !in name && name != ""
    requires var m := LongLookup(name, sx.table, 0, None); m.Match? && sx.table[m.index].hasArg.RequiredArgument?
    ensures var attached := NextCall(sx, ["--" + name + "=" + value] + rest, Cursor(0, 0));
            var separate := NextCall(sx, ["--" + name, value] + rest, Cursor(0, 0));
            && attached.Report? && separate.Report?
            && attached.reading.optarg == Some(value)
            && attached.reading.(next := Cursor(0, 0)) == separate.reading.(next := Cursor(0, 0))
            && attached.reading.next == Cursor(1, 0) && separate.reading.next == Cursor(2, 0)
  {
    hide NextCall, ReadShort, ReadOption, LongLookup, IndexOf;
    var a, s := ["--" + name + "=" + value] + rest, ["--" + name, value] + rest;
    assert "--" + name + "=" + value == "--" + (name + "=" + value);
    OpenedLong(sx, a, name + "=" + value);
    OpenedLong(sx, s, name);
    EqualsAt(name, value);
    ValueBehindEquals(name, value);
    assert name[..|name|] == name;
    assert s[1] == value;
  }

  lemma ValueBehindEquals(name: string, value: string)
    ensures (name + "=" + value)[..|name|] == name && (name + "=" + value)[|name| + 1..] == value
  {
  }

  /** A word that begins with two dashes is a long option. */
  lemma OpenedLong(sx: Syntax, args: seq<string>, text: string)
    requires args != [] && text != "" && args[0] == "--" + text
    ensures NextCall(sx, args, Cursor(0, 0)).Report?
    ensures NextCall(sx, args, Cursor(0, 0)).reading == ReadLong(sx, args, 0, text)
  {
    hide ReadLong, ReadShort;
    OpenedBehindDash(sx, args, 0);
    assert args[0][2..] == text;
  }

  lemma {:induction false} EqualsAt(name: string, value: string)
    requires '=' !in name
    ensures IndexOf(name + "=" + value, '=') == |name| == IndexOf(name, '=')
  {
    IndexOfIs(name + "=" + value, '=', |name|);
    IndexOfIs(name, '=', |name|);
  }

  lemma {:induction false} IndexOfIs(s: string, c: char, i: nat)
    requires i <= |s| && (i < |s| ==> s[i] == c)
    requires forall j :: 0 <= j < i ==> s[j] != c
    ensures IndexOf(s, c) == i
  {
    if i > 0 {
      IndexOfIs(s[1..], c, i - 1);
    }
  }
}
