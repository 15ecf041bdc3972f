/** Command lines as their users write them, and what src/argv_getopt.inl reports for each of them. */
module OptionGrammar {
  import opened Wrappers
  import opened OptionSyntax
  import opened OptionRescan
  import OptionLaws

  // ---------------------------------------------------------------- the letters of an option string

  /** How a letter stands in the option string: not at all, alone, before ":", before "::", or W before ";". */
  datatype Kind = Unknown | Flag | Required | Optional | Wide

  function KindOf(sx: Syntax, c: char): Kind {
    var at := IndexOf(sx.options, c);
    if c == ':' || at == |sx.options| then Unknown
    else if c == 'W' && At(sx.options, at + 1) == ';' then Wide
    else if At(sx.options, at + 1) != ':' then Flag
    else if At(sx.options, at + 2) == ':' then Optional
    else Required
  }

  // ---------------------------------------------------------------- command lines

  /** A long option, what its name means in the table, and its argument behind "=" or in the next word. */
  datatype Long = Long(name: string, answer: LongMatch, attached: Option<string>, separate: Option<string>)

  /** What ends a word of option letters. */
  datatype Tail =
    | NoTail
    | Attached(c: char, value: string)
    | Separate(c: char, value: string)
    | Omitted(c: char)
    | Dashed(long: Long)     // "-" and a long option, which is "--name" when no letter precedes it
    | WideHere(long: Long)   // "W" and a long option in the same word
    | WideNext(long: Long)   // "W", and the long option is the next word

  datatype Item =
    | Word(letters: string, tail: Tail)
    | Dash(value: Option<string>)  // a lone dash that is an option letter
    | Operand(arg: string)

  function List(o: Option<string>): seq<string> {
    if o.Some? then [o.value] else []
  }

  function LongText(l: Long): string {
    l.name + (if l.attached.Some? then "=" + l.attached.value else "")
  }

  function TailText(tail: Tail): string {
    match tail
    case NoTail => ""
    case Attached(c, value) => [c] + value
    case Separate(c, _) => [c]
    case Omitted(c) => [c]
    case Dashed(l) => "-" + LongText(l)
    case WideHere(l) => "W" + LongText(l)
    case WideNext(_) => "W"
  }

  function TailWords(tail: Tail): seq<string> {
    match tail
    case Separate(_, value) => [value]
    case Dashed(l) => List(l.separate)
    case WideHere(l) => List(l.separate)
    case WideNext(l) => [LongText(l)] + List(l.separate)
    case _ => []
  }

  function Words(item: Item): (words: seq<string>)
    ensures words != []
  {
    match item
    case Word(letters, tail) => ["-" + (letters + TailText(tail))] + TailWords(tail)
    case Dash(value) => ["-"] + List(value)
    case Operand(arg) => [arg]
  }

  /** The items, and "--" with what follows it if it is there. */
  function Print(items: seq<Item>, rest: Option<seq<string>>): seq<string> {
    if items != [] then Words(items[0]) + Print(items[1..], rest)
    else if rest.Some? then ["--"] + rest.value
    else []
  }

  // ---------------------------------------------------------------- which of them are well formed

  predicate Lacks(sx: Syntax, l: Long) {
    l.answer.Match? && l.answer.index < |sx.table| && sx.table[l.answer.index].hasArg.RequiredArgument?
    && l.attached.None? && l.separate.None?
  }

  /** The next word belongs to a long option exactly if it requires an argument and has none; only at the end of the
      line is there no next word. */
  ghost predicate LongFits(sx: Syntax, l: Long, atEnd: bool) {
    && '=' !in l.name && LongMatchMeans(l.name, sx.table, l.answer)
    && (l.separate.Some? ==> Lacks(sx, l.(separate := None)))
    && (Lacks(sx, l) ==> atEnd)
  }

  ghost predicate TailFits(sx: Syntax, tail: Tail, atEnd: bool) {
    match tail
    case NoTail => true
    case Attached(c, value) => c != '-' && value != "" && (KindOf(sx, c).Required? || KindOf(sx, c).Optional?)
    case Separate(c, _) => c != '-' && KindOf(sx, c).Required?
    case Omitted(c) =>
      c != '-' && (KindOf(sx, c).Optional? || (atEnd && (KindOf(sx, c).Required? || KindOf(sx, c).Wide?)))
    case Dashed(l) => LongFits(sx, l, atEnd)
    case WideHere(l) => KindOf(sx, 'W').Wide? && LongText(l) != "" && LongFits(sx, l, atEnd)
    case WideNext(l) => KindOf(sx, 'W').Wide? && LongFits(sx, l, atEnd)
  }

  predicate Simple(sx: Syntax, letters: string) {
    forall c <- letters :: c != '-' && (KindOf(sx, c).Unknown? || KindOf(sx, c).Flag?)
  }

  ghost predicate Fits(sx: Syntax, item: Item, atEnd: bool) {
    match item
    case Word(letters, tail) =>
      Simple(sx, letters) && TailFits(sx, tail, atEnd) && letters + TailText(tail) !in {"", "-"}
    case Dash(value) =>
      && !KindOf(sx, '-').Unknown?
      && (value.Some? ==> KindOf(sx, '-').Required?)
      && (value.None? && KindOf(sx, '-').Required? ==> atEnd)
    case Operand(arg) => arg == "" || arg[0] != '-' || (arg == "-" && KindOf(sx, '-').Unknown?)
  }

  ghost predicate AllFit(sx: Syntax, items: seq<Item>, rest: Option<seq<string>>) {
    items != [] ==> Fits(sx, items[0], Print(items[1..], rest) == []) && AllFit(sx, items[1..], rest)
  }

  // ---------------------------------------------------------------- what they mean

  /** The code for an argument that is missing or unwanted: option strings that begin with a colon ask for a colon. */
  function BadCode(sx: Syntax): int {
    if ":" <= sx.options then ':' as int else '?' as int
  }

  const NOWHERE := Cursor(0, 0)

  function Heard(code: int, arg: Option<string>): Reading {
    Reading(code, arg, None, None, None, NOWHERE)
  }

  function Blamed(code: int, culprit: int): Reading {
    Reading(code, None, Some(culprit), None, None, NOWHERE)
  }

  /** The value of the table row, unless the row has a variable: then 0, and the variable is set to the value. */
  function LongMeans(sx: Syntax, l: Long): Reading
    requires l.answer.Match? ==> l.answer.index < |sx.table|
  {
    match l.answer
    case NoMatch => Blamed('?' as int, 0)
    case Ambiguous => Blamed('?' as int, 0)
    case Match(k) =>
      match sx.table[k]
      case LongOption(_, hasArg, None, val) =>
        if (hasArg.NoArgument? && l.attached.Some?) || Lacks(sx, l) then Blamed(BadCode(sx), val)
        else Reading(val, if l.attached.Some? then l.attached else l.separate, None, Some(k), None, NOWHERE)
      case LongOption(_, hasArg, Some(variable), val) =>
        if (hasArg.NoArgument? && l.attached.Some?) || Lacks(sx, l) then Blamed(BadCode(sx), 0)
        else
          Reading(0, if l.attached.Some? then l.attached else l.separate, None, Some(k), Some((variable, val)), NOWHERE)
  }

  function LetterMeans(sx: Syntax, c: char): Reading {
    if KindOf(sx, c).Unknown? then Blamed('?' as int, c as int) else Heard(c as int, None)
  }

  function LettersMean(sx: Syntax, letters: string): seq<Reading> {
    if letters == "" then [] else [LetterMeans(sx, letters[0])] + LettersMean(sx, letters[1..])
  }

  predicate HasRow(sx: Syntax, tail: Tail) {
    (tail.Dashed? || tail.WideHere? || tail.WideNext?) && tail.long.answer.Match? ==>
      tail.long.answer.index < |sx.table|
  }

  function TailMeans(sx: Syntax, tail: Tail): seq<Reading>
    requires HasRow(sx, tail)
  {
    match tail
    case NoTail => []
    case Attached(c, value) => [Heard(c as int, Some(value))]
    case Separate(c, value) => [Heard(c as int, Some(value))]
    case Omitted(c) => [if KindOf(sx, c).Optional? then Heard(c as int, None) else Blamed(BadCode(sx), c as int)]
    case Dashed(l) => [LongMeans(sx, l)]
    case WideHere(l) => [LongMeans(sx, l)]
    case WideNext(l) => [LongMeans(sx, l)]
  }

  predicate HasRows(sx: Syntax, item: Item) {
    item.Word? ==> HasRow(sx, item.tail)
  }

  function Means(sx: Syntax, item: Item): seq<Reading>
    requires HasRows(sx, item)
  {
    match item
    case Word(letters, tail) => LettersMean(sx, letters) + TailMeans(sx, tail)
    case Dash(value) =>
      [if value.None? && KindOf(sx, '-').Required? then Blamed(BadCode(sx), '-' as int) else Heard('-' as int, value)]
    case Operand(_) => []
  }

  function Meaning(sx: Syntax, items: seq<Item>): seq<Reading>
    requires forall item <- items :: HasRows(sx, item)
  {
    if items == [] then [] else Means(sx, items[0]) + Meaning(sx, items[1..])
  }

  function OptionWords(items: seq<Item>): seq<string> {
    if items == [] then []
    else (if items[0].Operand? then [] else Words(items[0])) + OptionWords(items[1..])
  }

  function Operands(items: seq<Item>): seq<string> {
    if items == [] then []
    else (if items[0].Operand? then [items[0].arg] else []) + Operands(items[1..])
  }

  // ---------------------------------------------------------------- the steps of a scan

  /** A report without the place where the scan goes on. */
  function Said(r: Reading): Reading {
    r.(next := NOWHERE)
  }

  function AllSaid(reports: seq<Reading>): (said: seq<Reading>)
    ensures |said| == |reports|
  {
    seq(|reports|, i requires 0 <= i < |reports| => Said(reports[i]))
  }

  /** Scanning from `c` to `d` reports `said` and passes these options and operands. */
  ghost predicate Tells(sx: Syntax, a: seq<string>, c: Cursor, said: seq<Reading>, options: seq<string>,
                        operands: seq<string>, d: Cursor)
  {
    && InText(a, c) && InText(a, d)
    && AllSaid(Reports(sx, a, c)) == said + AllSaid(Reports(sx, a, d))
    && Opts(sx, a, c) == options + Opts(sx, a, d)
    && Plain(sx, a, c) == operands + Plain(sx, a, d)
    && Unscanned(sx, a, c) == Unscanned(sx, a, d)
  }

  lemma TellsBoth(sx: Syntax, a: seq<string>, c: Cursor, s: seq<Reading>, o: seq<string>, d: Cursor,
                  s': seq<Reading>, o': seq<string>, e: Cursor)
    requires Tells(sx, a, c, s, o, [], d) && Tells(sx, a, d, s', o', [], e)
    ensures Tells(sx, a, c, s + s', o + o', [], e)
  {
    hide Reports, Opts, Plain, Unscanned, AllSaid;
    var rs, ro := AllSaid(Reports(sx, a, e)), Opts(sx, a, e);
    assert s + (s' + rs) == s + s' + rs;
    assert o + (o' + ro) == o + o' + ro;
    assert [] + Plain(sx, a, e) == Plain(sx, a, e);
  }

  /** One option is read. */
  lemma OptionTells(sx: Syntax, a: seq<string>, c: Cursor)
    requires InText(a, c) && c.ind < |a|
    requires c.off == 0 ==> !IsPlain(sx, a[c.ind]) && a[c.ind] != "--"
    ensures var r := ReadOption(sx, a, c); Tells(sx, a, c, [Said(r)], a[c.ind..r.next.ind], [], r.next)
  {
    hide ReadOption, IsPlain, Opts, Plain, Unscanned;
    var r := ReadOption(sx, a, c);
    OptionStep(sx, a, c);
    assert Reports(sx, a, c) == [r] + Reports(sx, a, r.next);
    assert AllSaid([r] + Reports(sx, a, r.next)) == [Said(r)] + AllSaid(Reports(sx, a, r.next));
    assert [] + Plain(sx, a, r.next) == Plain(sx, a, r.next);
  }

  /** A word is opened behind its dash. */
  lemma OpeningTells(sx: Syntax, a: seq<string>, i: nat)
    requires i < |a| && |a[i]| > 1 && a[i][0] == '-' && a[i] != "--"
    ensures Tells(sx, a, Cursor(i, 0), [], [], [], Cursor(i, 1))
  {
    hide ReadLong, ReadShort, Opts, Plain, Unscanned;
    var r := ReadOption(sx, a, Cursor(i, 1));
    assert ReadOption(sx, a, Cursor(i, 0)) == r;
    OptionStep(sx, a, Cursor(i, 0));
    OptionStep(sx, a, Cursor(i, 1));
    assert Reports(sx, a, Cursor(i, 0)) == [r] + Reports(sx, a, r.next);
    assert Reports(sx, a, Cursor(i, 1)) == [r] + Reports(sx, a, r.next);
    EmptyTells(sx, a, Cursor(i, 1));
  }

  lemma EmptyTells(sx: Syntax, a: seq<string>, c: Cursor)
    requires InText(a, c)
    ensures Tells(sx, a, c, [], [], [], c)
  {
    hide Reports, Opts, Plain, Unscanned, AllSaid;
    assert [] + AllSaid(Reports(sx, a, c)) == AllSaid(Reports(sx, a, c));
    assert [] + Opts(sx, a, c) == Opts(sx, a, c);
    assert [] + Plain(sx, a, c) == Plain(sx, a, c);
  }

  // ---------------------------------------------------------------- long options

  /** The words that follow are in the vector. */
  ghost predicate Follow(a: seq<string>, i: nat, words: seq<string>) {
    i + |words| <= |a| && a[i..i + |words|] == words
  }

  lemma LongSplits(l: Long)
    requires '=' !in l.name
    ensures var text := LongText(l); var eq := IndexOf(text, '=');
            && eq == |l.name| && text[..eq] == l.name && (l.attached.Some? <==> eq < |text|)
            && (l.attached.Some? ==> text[eq + 1..] == l.attached.value)
  {
    hide IndexOf;
    var text := LongText(l);
    OptionLaws.IndexOfIs(text, '=', |l.name|);
    if l.attached.None? {
      assert l.name + "" == l.name;
    } else {
      assert l.name + ("=" + l.attached.value) == l.name + "=" + l.attached.value;
      OptionLaws.ValueBehindEquals(l.name, l.attached.value);
    }
  }

  lemma LookupIs(sx: Syntax, name: string, m: LongMatch)
    requires LongMatchMeans(name, sx.table, m)
    ensures LongLookup(name, sx.table, 0, None) == m
  {
    LongLookupMeaning(name, sx.table, 0, None);
    LongMatchUnique(name, sx.table, m, LongLookup(name, sx.table, 0, None));
  }

  lemma LongReads(sx: Syntax, a: seq<string>, i: nat, l: Long)
    requires i < |a| && Follow(a, i + 1, List(l.separate))
    requires LongFits(sx, l, i + 1 + |List(l.separate)| == |a|)
    ensures l.answer.Match? ==> l.answer.index < |sx.table|
    ensures ReadLong(sx, a, i, LongText(l)) == LongMeans(sx, l).(next := Cursor(i + 1 + |List(l.separate)|, 0))
  {
    hide IndexOf, LongLookup;
    LongSplits(l);
    LookupIs(sx, l.name, l.answer);
    if l.separate.Some? {
      assert a[i + 1] == a[i + 1..i + 2][0];
    }
  }

  // ---------------------------------------------------------------- words

  lemma SuffixAt(word: string, off: nat, c: char, more: string)
    requires off <= |word| && word[off..] == [c] + more
    ensures off < |word| && word[off] == c && word[off + 1..] == more
  {
    assert word[off..][0] == c && word[off..][1..] == more;
  }

  /** A letter that takes no argument, or is none of the options. */
  lemma LetterTells(sx: Syntax, a: seq<string>, i: nat, off: nat, c: char, more: string)
    requires i < |a| && 0 < off <= |a[i]| && a[i][off..] == [c] + more && Simple(sx, [c])
    ensures off < |a[i]|
    ensures var d := Behind(a, i, off); Tells(sx, a, Cursor(i, off), [LetterMeans(sx, c)], a[i..d.ind], [], d)
  {
    hide Tells, ReadLong, IndexOf, Simple;
    SuffixAt(a[i], off, c, more);
    SimpleIs(sx, c);
    OptionTells(sx, a, Cursor(i, off));
  }

  lemma SimpleIs(sx: Syntax, c: char)
    requires Simple(sx, [c])
    ensures c != '-' && (KindOf(sx, c).Unknown? || KindOf(sx, c).Flag?)
  {
    assert c in [c];
  }

  /** What a tail says at its place, which is the end of its word. */
  lemma ArgumentTells(sx: Syntax, a: seq<string>, i: nat, off: nat, tail: Tail)
    requires i < |a| && 0 < off <= |a[i]| && a[i][off..] == TailText(tail) && Follow(a, i + 1, TailWords(tail))
    requires tail.Attached? || tail.Separate? || tail.Omitted?
    requires TailFits(sx, tail, i + 1 + |TailWords(tail)| == |a|)
    ensures off < |a[i]|
    ensures ReadOption(sx, a, Cursor(i, off)) == TailMeans(sx, tail)[0].(next := Cursor(i + 1 + |TailWords(tail)|, 0))
  {
    hide ReadLong, IndexOf;
    SuffixAt(a[i], off, tail.c, if tail.Attached? then tail.value else "");
    if tail.Separate? {
      assert a[i + 1] == a[i + 1..i + 2][0];
    }
  }

  lemma LongTells(sx: Syntax, a: seq<string>, i: nat, off: nat, tail: Tail)
    requires i < |a| && 0 < off <= |a[i]| && a[i][off..] == TailText(tail) && Follow(a, i + 1, TailWords(tail))
    requires tail.Dashed? || tail.WideHere? || tail.WideNext?
    requires TailFits(sx, tail, i + 1 + |TailWords(tail)| == |a|)
    ensures off < |a[i]| && HasRow(sx, tail)
    ensures ReadOption(sx, a, Cursor(i, off)) == TailMeans(sx, tail)[0].(next := Cursor(i + 1 + |TailWords(tail)|, 0))
  {
    hide ReadLong, IndexOf, LongText, LongMeans, LongFits;
    match tail
    case Dashed(l) =>
      SuffixAt(a[i], off, '-', LongText(l));
      LongReads(sx, a, i, l);
    case WideHere(l) =>
      SuffixAt(a[i], off, 'W', LongText(l));
      LongReads(sx, a, i, l);
    case WideNext(l) =>
      SuffixAt(a[i], off, 'W', "");
      assert a[i + 1] == a[i + 1..i + 1 + |TailWords(tail)|][0];
      assert a[i + 2..i + 2 + |List(l.separate)|] == a[i + 1..i + 1 + |TailWords(tail)|][1..];
      LongReads(sx, a, i + 1, l);
  }

  lemma TailTells(sx: Syntax, a: seq<string>, i: nat, off: nat, tail: Tail)
    requires i < |a| && 0 < off <= |a[i]| && a[i][off..] == TailText(tail) && Follow(a, i + 1, TailWords(tail))
    requires !tail.NoTail? && TailFits(sx, tail, i + 1 + |TailWords(tail)| == |a|)
    ensures off < |a[i]| && HasRow(sx, tail)
    ensures Tells(sx, a, Cursor(i, off), TailMeans(sx, tail), [a[i]] + TailWords(tail), [],
                  Cursor(i + 1 + |TailWords(tail)|, 0))
  {
    hide Tells, ReadOption, IndexOf, LongText, LongMeans, LongFits, TailFits;
    if tail.Attached? || tail.Separate? || tail.Omitted? {
      ArgumentTells(sx, a, i, off, tail);
    } else {
      LongTells(sx, a, i, off, tail);
    }
    OptionTells(sx, a, Cursor(i, off));
    var n := i + 1 + |TailWords(tail)|;
    FirstOf(a, i, n);
    SaidAgain(TailMeans(sx, tail), Cursor(n, 0), sx, tail);
  }

  lemma FirstOf(a: seq<string>, i: nat, n: nat)
    requires i < n <= |a|
    ensures a[i..n] == [a[i]] + a[i + 1..n]
  {
  }

  lemma SaidAgain(means: seq<Reading>, d: Cursor, sx: Syntax, tail: Tail)
    requires HasRow(sx, tail) && !tail.NoTail? && means == TailMeans(sx, tail)
    ensures means == [Said(means[0].(next := d))]
  {
    hide IndexOf, Lacks;
  }

  lemma SimpleSplits(sx: Syntax, letters: string)
    requires letters != "" && Simple(sx, letters)
    ensures Simple(sx, [letters[0]]) && Simple(sx, letters[1..])
  {
    hide KindOf;
    assert letters[0] in letters;
    assert forall c <- letters[1..] :: c in letters;
  }

  /** The letters of a word from `off` on, and its tail. */
  lemma {:induction false} LettersTell(sx: Syntax, a: seq<string>, i: nat, off: nat, letters: string, tail: Tail)
    requires i < |a| && 0 < off < |a[i]| && a[i][off..] == letters + TailText(tail)
    requires Simple(sx, letters) && Follow(a, i + 1, TailWords(tail))
    requires TailFits(sx, tail, i + 1 + |TailWords(tail)| == |a|)
    ensures HasRow(sx, tail)
    ensures Tells(sx, a, Cursor(i, off), LettersMean(sx, letters) + TailMeans(sx, tail), [a[i]] + TailWords(tail), [],
                  Cursor(i + 1 + |TailWords(tail)|, 0))
    decreases |letters|
  {
    hide Tells, IndexOf, LetterMeans, TailFits, TailMeans, TailText, TailWords, HasRow;
    if letters == "" {
      assert "" + TailText(tail) == TailText(tail);
      assert |a[i][off..]| > 0;
      NoTailIsEmpty(sx, tail);
      TailTells(sx, a, i, off, tail);
      assert [] + TailMeans(sx, tail) == TailMeans(sx, tail);
    } else {
      var c, more := letters[0], letters[1..];
      assert letters + TailText(tail) == [c] + (more + TailText(tail));
      SimpleSplits(sx, letters);
      SuffixAt(a[i], off, c, more + TailText(tail));
      LetterTells(sx, a, i, off, c, more + TailText(tail));
      if off + 1 < |a[i]| {
        LettersTell(sx, a, i, off + 1, more, tail);
        assert a[i..i] == [];
        TellsBoth(sx, a, Cursor(i, off), [LetterMeans(sx, c)], [], Cursor(i, off + 1),
                  LettersMean(sx, more) + TailMeans(sx, tail), [a[i]] + TailWords(tail),
                  Cursor(i + 1 + |TailWords(tail)|, 0));
        assert [] + ([a[i]] + TailWords(tail)) == [a[i]] + TailWords(tail);
        assert [LetterMeans(sx, c)] + (LettersMean(sx, more) + TailMeans(sx, tail))
            == LettersMean(sx, letters) + TailMeans(sx, tail);
      } else {
        assert more + TailText(tail) == "" && more == "" && TailText(tail) == "";
        NoTailIsEmpty(sx, tail);
        assert LettersMean(sx, letters) + TailMeans(sx, tail) == [LetterMeans(sx, c)];
        assert a[i..i + 1] == [a[i]] + [];
      }
    }
  }

  lemma NoTailIsEmpty(sx: Syntax, tail: Tail)
    ensures tail.NoTail? <==> TailText(tail) == ""
    ensures tail.NoTail? ==> HasRow(sx, tail) && TailMeans(sx, tail) == [] && TailWords(tail) == []
  {
    hide LongText;
  }

  // ---------------------------------------------------------------- whole lines

  /** Where the words of an item stand, it is read as what it means. */
  lemma WordTells(sx: Syntax, a: seq<string>, i: nat, letters: string, tail: Tail)
    requires Follow(a, i, Words(Word(letters, tail)))
    requires Fits(sx, Word(letters, tail), i + |Words(Word(letters, tail))| == |a|)
    ensures HasRow(sx, tail)
    ensures Tells(sx, a, Cursor(i, 0), Means(sx, Word(letters, tail)), Words(Word(letters, tail)), [],
                  Cursor(i + |Words(Word(letters, tail))|, 0))
  {
    hide Tells, TailFits, TailMeans, TailText, TailWords, HasRow, LettersMean, Simple;
    var words := Words(Word(letters, tail));
    var text := letters + TailText(tail);
    assert a[i] == a[i..i + |words|][0] == "-" + text;
    assert a[i + 1..i + 1 + |TailWords(tail)|] == words[1..];
    assert a[i][1..] == text;
    NotDashes(text);
    OpeningTells(sx, a, i);
    LettersTell(sx, a, i, 1, letters, tail);
    var d := Cursor(i + |words|, 0);
    TellsBoth(sx, a, Cursor(i, 0), [], [], Cursor(i, 1), Means(sx, Word(letters, tail)), words, d);
    assert [] + Means(sx, Word(letters, tail)) == Means(sx, Word(letters, tail));
    assert [] + words == words;
  }

  lemma NotDashes(text: string)
    requires text !in {"", "-"}
    ensures "-" + text != "--" && |"-" + text| > 1
  {
    assert ("-" + text)[1..] == text;
  }

  lemma DashTells(sx: Syntax, a: seq<string>, i: nat, value: Option<string>)
    requires Follow(a, i, Words(Dash(value))) && Fits(sx, Dash(value), i + |Words(Dash(value))| == |a|)
    ensures Tells(sx, a, Cursor(i, 0), Means(sx, Dash(value)), Words(Dash(value)), [],
                  Cursor(i + |Words(Dash(value))|, 0))
  {
    hide Tells, ReadLong, IndexOf;
    var n := i + |Words(Dash(value))|;
    assert a[i] == a[i..n][0] == "-";
    if value.Some? {
      assert a[i + 1] == a[i..n][1];
    }
    assert a[i][0 + 1..] == "";
    OptionTells(sx, a, Cursor(i, 0));
  }

  lemma OperandTells(sx: Syntax, a: seq<string>, i: nat, arg: string)
    requires Follow(a, i, [arg]) && Fits(sx, Operand(arg), i + 1 == |a|)
    ensures Tells(sx, a, Cursor(i, 0), [], [], [arg], Cursor(i + 1, 0))
  {
    hide ReadOption, Opts, Plain, Unscanned, IndexOf;
    assert a[i] == a[i..i + 1][0] == arg;
    PlainStep(sx, a, Cursor(i, 0));
    var d := Cursor(i + 1, 0);
    assert Reports(sx, a, Cursor(i, 0)) == Reports(sx, a, d);
    assert [] + AllSaid(Reports(sx, a, d)) == AllSaid(Reports(sx, a, d));
    assert [] + Opts(sx, a, d) == Opts(sx, a, d);
  }

  lemma ItemTells(sx: Syntax, a: seq<string>, i: nat, item: Item)
    requires Follow(a, i, Words(item)) && Fits(sx, item, i + |Words(item)| == |a|)
    ensures HasRows(sx, item)
    ensures Tells(sx, a, Cursor(i, 0), Means(sx, item), if item.Operand? then [] else Words(item),
                  if item.Operand? then [item.arg] else [], Cursor(i + |Words(item)|, 0))
  {
    hide Tells;
    match item
    case Word(letters, tail) => WordTells(sx, a, i, letters, tail);
    case Dash(value) => DashTells(sx, a, i, value);
    case Operand(arg) => OperandTells(sx, a, i, arg);
  }

  /** From the place where a line of items stands to the end of the vector. */
  lemma {:induction false} LineTells(sx: Syntax, a: seq<string>, i: nat, items: seq<Item>, rest: Option<seq<string>>)
    requires i <= |a| && a[i..] == Print(items, rest) && AllFit(sx, items, rest)
    ensures forall item <- items :: HasRows(sx, item)
    ensures AllSaid(Reports(sx, a, Cursor(i, 0))) == Meaning(sx, items)
    ensures Opts(sx, a, Cursor(i, 0)) == OptionWords(items) + (if rest.Some? then ["--"] else [])
    ensures Plain(sx, a, Cursor(i, 0)) == Operands(items)
    ensures Unscanned(sx, a, Cursor(i, 0)) == if rest.Some? then rest.value else []
    decreases |items|
  {
    hide ReadOption, Reports, AllSaid, Opts, Plain, Unscanned, Words, Means, HasRows, Fits, Tells;
    if items != [] {
      var words, more := Words(items[0]), Print(items[1..], rest);
      var j := i + |words|;
      SplitOff(a, i, words, more);
      ItemTells(sx, a, i, items[0]);
      LineTells(sx, a, j, items[1..], rest);
      ItemsSplit(sx, items);
      TellsToEnd(sx, a, Cursor(i, 0), Means(sx, items[0]), if items[0].Operand? then [] else words,
                 if items[0].Operand? then [items[0].arg] else [], Cursor(j, 0), Meaning(sx, items[1..]),
                 OptionWords(items[1..]), if rest.Some? then ["--"] else [], Operands(items[1..]));
    } else {
      LineEnds(sx, a, i, rest);
    }
  }

  lemma SplitOff(a: seq<string>, i: nat, words: seq<string>, more: seq<string>)
    requires i <= |a| && a[i..] == words + more
    ensures i + |words| <= |a| && Follow(a, i, words) && a[i + |words|..] == more
    ensures i + |words| == |a| <==> more == []
  {
    assert a[i..i + |words|] == a[i..][..|words|];
    assert a[i + |words|..] == a[i..][|words|..];
  }

  lemma TellsToEnd(sx: Syntax, a: seq<string>, c: Cursor, said: seq<Reading>, options: seq<string>,
                   operands: seq<string>, d: Cursor, said': seq<Reading>, options': seq<string>, dashes: seq<string>,
                   operands': seq<string>)
    requires Tells(sx, a, c, said, options, operands, d)
    requires AllSaid(Reports(sx, a, d)) == said' && Opts(sx, a, d) == options' + dashes && Plain(sx, a, d) == operands'
    ensures AllSaid(Reports(sx, a, c)) == said + said' && Opts(sx, a, c) == options + options' + dashes
    ensures Plain(sx, a, c) == operands + operands' && Unscanned(sx, a, c) == Unscanned(sx, a, d)
  {
    hide Reports, AllSaid, Opts, Plain, Unscanned;
    assert options + (options' + dashes) == options + options' + dashes;
  }

  lemma ItemsSplit(sx: Syntax, items: seq<Item>)
    requires items != [] && HasRows(sx, items[0]) && forall item <- items[1..] :: HasRows(sx, item)
    ensures forall item <- items :: HasRows(sx, item)
  {
    hide HasRows;
    assert items == [items[0]] + items[1..];
  }

  lemma LineEnds(sx: Syntax, a: seq<string>, i: nat, rest: Option<seq<string>>)
    requires i <= |a| && a[i..] == Print([], rest)
    ensures Reports(sx, a, Cursor(i, 0)) == []
    ensures Opts(sx, a, Cursor(i, 0)) == if rest.Some? then ["--"] else []
    ensures Plain(sx, a, Cursor(i, 0)) == []
    ensures Unscanned(sx, a, Cursor(i, 0)) == if rest.Some? then rest.value else []
  {
    if rest.Some? {
      assert a[i] == a[i..][0] == "--";
      assert a[i + 1..] == a[i..][1..] == rest.value;
      DashesStep(sx, a, Cursor(i, 0));
    }
  }

  /** A command line is understood as it is written: the scan reports what the items mean, one after the other, and
      leaves the options before the operands and both before what follows "--". */
  lemma Understood(sx: Syntax, items: seq<Item>, rest: Option<seq<string>>)
    requires AllFit(sx, items, rest)
    ensures forall item <- items :: HasRows(sx, item)
    ensures var a, dashes := Print(items, rest), if rest.Some? then ["--"] else [];
      && AllSaid(Reports(sx, a, Cursor(0, 0))) == Meaning(sx, items)
      && Partitioned(sx, a, 0)
         == OptionWords(items) + dashes + Operands(items) + (if rest.Some? then rest.value else [])
      && FirstPlain(sx, a, 0) == |OptionWords(items) + dashes|
      && Log(Reports(sx, a, Cursor(0, 0))) == Log(Meaning(sx, items))
  {
    hide Reports, Meaning, OptionWords, Operands, AllFit, Print;
    var a := Print(items, rest);
    assert a[0..] == a;
    LineTells(sx, a, 0, items, rest);
    var m := Mask(sx, a, Cursor(0, 0));
    assert a[..0] == [];
    assert [] + Opts(sx, a, Cursor(0, 0)) == Opts(sx, a, Cursor(0, 0));
    LogOfSaid(Reports(sx, a, Cursor(0, 0)));
  }

  lemma LogOfSaid(reports: seq<Reading>)
    ensures Log(AllSaid(reports)) == Log(reports)
  {
  }

  /** What a call answers to a word that begins with two dashes. */
  lemma LongAnswer(sx: Syntax, l: Long, more: seq<string>)
    requires LongText(l) != "" && LongFits(sx, l, more == [])
    ensures var a, n := ["--" + LongText(l)] + List(l.separate) + more, 1 + |List(l.separate)|;
            && (l.answer.Match? ==> l.answer.index < |sx.table|)
            && NextCall(sx, a, Cursor(0, 0)) == Report(Cursor(0, 0), LongMeans(sx, l).(next := Cursor(n, 0)))
  {
    hide ReadLong, LongText, LongMeans, LongFits, NextCall;
    var a := ["--" + LongText(l)] + List(l.separate) + more;
    LongReads(sx, a, 0, l);
    OptionLaws.OpenedLong(sx, a, LongText(l));
    OpenedFrom(sx, a);
  }

  lemma OpenedFrom(sx: Syntax, a: seq<string>)
    requires a != [] && NextCall(sx, a, Cursor(0, 0)).Report? && a[0] != "" && a[0] != "-" && a[0][0] == '-'
    ensures NextCall(sx, a, Cursor(0, 0)).from == Cursor(0, 0)
  {
    hide ReadOption;
  }

  // ---------------------------------------------------------------- every vector is such a line

  lemma LongOf(sx: Syntax, text: string, next: seq<string>) returns (l: Long)
    ensures LongText(l) == text && List(l.separate) <= next
    ensures LongFits(sx, l, List(l.separate) == next)
  {
    hide LongMatchMeans;
    var eq := IndexOf(text, '=');
    var answer := LongLookup(text[..eq], sx.table, 0, None);
    LongLookupStart(sx, text[..eq]);
    l := Long(text[..eq], answer, if eq < |text| then Some(text[eq + 1..]) else None, None);
    assert eq < |text| ==> text == text[..eq] + ("=" + text[eq + 1..]);
    if Lacks(sx, l) && next != [] {
      l := l.(separate := Some(next[0]));
    }
  }

  lemma LongLookupStart(sx: Syntax, name: string)
    ensures LongMatchMeans(name, sx.table, LongLookup(name, sx.table, 0, None))
  {
    hide LongMatchMeans;
    LongLookupMeaning(name, sx.table, 0, None);
  }

  /** How a word behind its dash divides into letters and a tail, where `next` are the words behind it. */
  lemma {:induction false} WordOf(sx: Syntax, text: string, next: seq<string>) returns (letters: string, tail: Tail)
    ensures letters + TailText(tail) == text && TailWords(tail) <= next
    ensures Simple(sx, letters) && TailFits(sx, tail, TailWords(tail) == next)
  {
    hide LongFits, LongText, IndexOf;
    letters := "";
    if text == "" {
      return "", NoTail;
    }
    var c, more := text[0], text[1..];
    assert text == [c] + more && "" + text == text;
    var kind := KindOf(sx, c);
    if c == '-' {
      var l := LongOf(sx, more, next);
      tail := Dashed(l);
    } else if kind.Unknown? || kind.Flag? {
      letters, tail := WordOf(sx, more, next);
      assert [c] + letters + TailText(tail) == [c] + more;
      letters := [c] + letters;
    } else if kind.Wide? {
      if more != "" {
        var l := LongOf(sx, more, next);
        tail := WideHere(l);
      } else if next == [] {
        tail := Omitted(c);
      } else {
        var l := LongOf(sx, next[0], next[1..]);
        assert next == [next[0]] + next[1..];
        tail := WideNext(l);
      }
    } else if more != "" {
      tail := Attached(c, more);
    } else if kind.Required? && next != [] {
      tail := Separate(c, next[0]);
    } else {
      tail := Omitted(c);
    }
  }

  lemma ItemOf(sx: Syntax, a: seq<string>, i: nat) returns (item: Item)
    requires i < |a| && a[i] != "--"
    ensures i + |Words(item)| <= |a| && a[i..i + |Words(item)|] == Words(item)
    ensures Fits(sx, item, i + |Words(item)| == |a|)
  {
    hide TailFits, TailText, TailWords, Simple, IndexOf;
    var next := a[i + 1..];
    if a[i] == "" || a[i][0] != '-' || (a[i] == "-" && KindOf(sx, '-').Unknown?) {
      item := Operand(a[i]);
    } else if a[i] == "-" {
      item := Dash(if KindOf(sx, '-').Required? && next != [] then Some(a[i + 1]) else None);
    } else {
      var letters, tail := WordOf(sx, a[i][1..], next);
      assert a[i] == "-" + a[i][1..];
      NoDashes(a[i]);
      item := Word(letters, tail);
      assert a[i..i + |Words(item)|] == [a[i]] + next[..|TailWords(tail)|];
    }
  }

  lemma NoDashes(word: string)
    requires word != "" && word[0] == '-' && word != "-" && word != "--"
    ensures word[1..] !in {"", "-"}
  {
    assert word == "-" + word[1..];
  }

  /** Any argument vector is such a line, so what is said of lines is said of all vectors. */
  lemma {:induction false} LineOf(sx: Syntax, a: seq<string>, i: nat)
    returns (items: seq<Item>, rest: Option<seq<string>>)
    requires i <= |a|
    ensures Print(items, rest) == a[i..] && AllFit(sx, items, rest)
    decreases |a| - i
  {
    hide Words, Fits;
    if i == |a| {
      items, rest := [], None;
    } else if a[i] == "--" {
      items, rest := [], Some(a[i + 1..]);
    } else {
      var item := ItemOf(sx, a, i);
      var j := i + |Words(item)|;
      items, rest := LineOf(sx, a, j);
      assert ([item] + items)[1..] == items;
      assert a[i..] == a[i..j] + a[j..];
      items := [item] + items;
    }
  }
}
