/** What one command line means to `getopt_long`, stated on an argument vector that is never reordered:
    which arguments are options, what each call reports and where the scan goes on. */
module OptionSyntax {
  import opened Wrappers

  datatype HasArg = NoArgument | RequiredArgument | OptionalArgument

  /** A row of the long-option table; `flag` names the variable that its `flag` pointer refers to, if any. */
  datatype LongOption = LongOption(name: string, hasArg: HasArg, flag: Option<nat>, val: int)

  /** The option string and the long-option table of a scan. */
  datatype Syntax = Syntax(options: string, table: seq<LongOption>) {
    /** The assumptions on callers: no reordering switches, and no option that reports the end-of-scan code. */
    predicate Valid() {
      && (options != "" ==> options[0] != '+' && options[0] != '-')
      && forall o <- table :: o.val != -1
    }

    /** The code for a missing or unwanted argument. */
    function BadArg(): int {
      if options != "" && options[0] == ':' then ':' as int else '?' as int
    }
  }

  /** The character at `i`, or NUL behind the end. */
  function At(s: string, i: nat): char {
    if i < |s| then s[i] else '\0'
  }

  /** The first position of `c` in `s`, or the length of `s`. */
  function IndexOf(s: string, c: char): (i: nat)
    ensures i <= |s|
    ensures i < |s| ==> s[i] == c
    ensures forall j :: 0 <= j < i ==> s[j] != c
  {
    if s == "" || s[0] == c then 0 else 1 + IndexOf(s[1..], c)
  }

  // ---------------------------------------------------------------- long options

  datatype LongMatch = NoMatch | Ambiguous | Match(index: nat)

  /** The table scan: the first exact name wins unless two abbreviated names precede it. */
  function LongLookup(name: string, table: seq<LongOption>, i: nat, found: Option<nat>): (m: LongMatch)
    requires i <= |table| && (found.Some? ==> found.value < |table|)
    ensures m.Match? ==> m.index < |table|
    decreases |table| - i
  {
    if i == |table| then
      if found.Some? then Match(found.value) else NoMatch
    else if !(name <= table[i].name) then
      LongLookup(name, table, i + 1, found)
    else if |table[i].name| == |name| then
      Match(i)
    else if found.None? then
      LongLookup(name, table, i + 1, Some(i))
    else
      Ambiguous
  }

  ghost predicate Exact(name: string, table: seq<LongOption>, i: nat) {
    i < |table| && table[i].name == name
  }

  ghost predicate Abbreviated(name: string, table: seq<LongOption>, i: nat) {
    i < |table| && name < table[i].name
  }

  /** What a lookup answer says about the table, without reference to the scan. */
  ghost predicate LongMatchMeans(name: string, table: seq<LongOption>, m: LongMatch) {
    match m
    case NoMatch =>
      forall i: nat :: !Exact(name, table, i) && !Abbreviated(name, table, i)
    case Ambiguous =>
      exists i: nat, j: nat :: i < j && Abbreviated(name, table, i) && Abbreviated(name, table, j)
        && forall k: nat :: k < j ==> !Exact(name, table, k)
    case Match(m) =>
      if Exact(name, table, m) then
        && (forall k: nat :: k < m ==> !Exact(name, table, k))
        && (forall i: nat, j: nat :: i < j < m ==> !(Abbreviated(name, table, i) && Abbreviated(name, table, j)))
      else
        && Abbreviated(name, table, m)
        && (forall k: nat :: !Exact(name, table, k))
        && (forall k: nat :: k != m ==> !Abbreviated(name, table, k))
  }

  ghost predicate LookupState(name: string, table: seq<LongOption>, i: nat, found: Option<nat>) {
    && i <= |table|
    && (forall k: nat :: k < i ==> !Exact(name, table, k))
    && (found.None? ==> forall k: nat :: k < i ==> !Abbreviated(name, table, k))
    && (found.Some? ==> found.value < i && Abbreviated(name, table, found.value))
    && (found.Some? ==> forall k: nat :: k < i && k != found.value ==> !Abbreviated(name, table, k))
  }

  lemma {:induction false} LongLookupMeaning(name: string, table: seq<LongOption>, i: nat, found: Option<nat>)
    requires LookupState(name, table, i, found)
    ensures LongMatchMeans(name, table, LongLookup(name, table, i, found))
    decreases |table| - i
  {
    if i < |table| {
      if !(name <= table[i].name) {
        LongLookupMeaning(name, table, i + 1, found);
      } else if |table[i].name| == |name| {
        assert Exact(name, table, i);
      } else if found.None? {
        LongLookupMeaning(name, table, i + 1, Some(i));
      } else {
        assert Abbreviated(name, table, found.value) && Abbreviated(name, table, i);
      }
    }
  }

  /** The answers exclude one another, so the meaning determines the lookup. */
  lemma LongMatchUnique(name: string, table: seq<LongOption>, m: LongMatch, m': LongMatch)
    requires LongMatchMeans(name, table, m) && LongMatchMeans(name, table, m')
    ensures m == m'
  {
  }

  // ---------------------------------------------------------------- one call

  /** Where the scan stands: at argument `ind`, `off` characters into it; 0 when it has not been opened. */
  datatype Cursor = Cursor(ind: nat, off: nat)

  /** What one call reports and changes. */
  datatype Reading = Reading(code: int, optarg: Option<string>, optopt: Option<int>,
                             longIndex: Option<nat>, flagged: Option<(nat, int)>, next: Cursor)

  function Complaint(code: int, optopt: int, next: Cursor): Reading {
    Reading(code, None, Some(optopt), None, None, next)
  }

  /** Reading `text` as `name` or `name=value`, where `ind` is the argument that holds it. */
  function ReadLong(sx: Syntax, args: seq<string>, ind: nat, text: string): (r: Reading)
    requires ind < |args|
    ensures ind < r.next.ind <= |args| && r.next.off == 0
    ensures sx.Valid() ==> r.code != -1
  {
    var eq := IndexOf(text, '=');
    var value: Option<string> := if eq < |text| then Some(text[eq + 1..]) else None;
    var next := Cursor(ind + 1, 0);
    match LongLookup(text[..eq], sx.table, 0, None)
    case NoMatch => Complaint('?' as int, 0, next)
    case Ambiguous => Complaint('?' as int, 0, next)
    case Match(m) =>
      var o := sx.table[m];
      var blamed := if o.flag.None? then o.val else 0;
      var code := if o.flag.None? then o.val else 0;
      var flagged := if o.flag.None? then None else Some((o.flag.value, o.val));
      if o.hasArg.NoArgument? && value.Some? then
        Complaint(sx.BadArg(), blamed, next)
      else if o.hasArg.RequiredArgument? && value.None? then
        if ind + 1 == |args| then Complaint(sx.BadArg(), blamed, next)
        else Reading(code, Some(args[ind + 1]), None, Some(m), flagged, Cursor(ind + 2, 0))
      else
        Reading(code, value, None, Some(m), flagged, next)
  }

  /** The place behind the character at `off`: inside the same argument, or the next argument. */
  function Behind(args: seq<string>, ind: nat, off: nat): (c: Cursor)
    requires ind < |args| && off < |args[ind]|
  {
    if off + 1 == |args[ind]| then Cursor(ind + 1, 0) else Cursor(ind, off + 1)
  }

  /** Reading the option letter at `off`. */
  function ReadShort(sx: Syntax, args: seq<string>, ind: nat, off: nat): (r: Reading)
    requires ind < |args| && off < |args[ind]|
    ensures InText(args, r.next)
    ensures Later(Cursor(ind, off), r.next)
    ensures sx.Valid() ==> r.code != -1
  {
    var c, rest := args[ind][off], args[ind][off + 1..];
    var at := IndexOf(sx.options, c);
    var next := Behind(args, ind, off);
    if c == ':' || (c == '-' && rest != "") || at == |sx.options| then
      Complaint('?' as int, c as int, next)
    else if c == 'W' && At(sx.options, at + 1) == ';' then
      if rest != "" then ReadLong(sx, args, ind, rest)
      else if ind + 1 == |args| then Complaint(sx.BadArg(), c as int, Cursor(ind + 1, 0))
      else ReadLong(sx, args, ind + 1, args[ind + 1])
    else if At(sx.options, at + 1) != ':' then
      Reading(c as int, None, None, None, None, next)
    else if rest != "" then
      Reading(c as int, Some(rest), None, None, None, Cursor(ind + 1, 0))
    else if At(sx.options, at + 2) == ':' then
      Reading(c as int, None, None, None, None, Cursor(ind + 1, 0))
    else if ind + 1 == |args| then
      Complaint(sx.BadArg(), c as int, Cursor(ind + 1, 0))
    else
      Reading(c as int, Some(args[ind + 1]), None, None, None, Cursor(ind + 2, 0))
  }

  /** A cursor inside an argument stands before one of its characters. */
  predicate InText(args: seq<string>, c: Cursor) {
    && (c.off == 0 ==> c.ind <= |args|)
    && (c.off > 0 ==> c.ind < |args| && c.off < |args[c.ind]|)
  }

  predicate Later(c: Cursor, d: Cursor) {
    c.ind < d.ind || (c.ind == d.ind && c.off < d.off)
  }

  /** An argument that is not an option: no leading dash, or a lone dash that is not an option letter. */
  predicate IsPlain(sx: Syntax, arg: string) {
    At(arg, 0) != '-' || (|arg| == 1 && '-' !in sx.options)
  }

  /** What the call that finds an option at `c` reports. */
  function ReadOption(sx: Syntax, args: seq<string>, c: Cursor): (r: Reading)
    requires c.ind < |args| && InText(args, c)
    requires c.off == 0 ==> !IsPlain(sx, args[c.ind])
    ensures InText(args, r.next) && Later(c, r.next)
    ensures sx.Valid() ==> r.code != -1
  {
    var arg := args[c.ind];
    var off := if c.off == 0 && |arg| > 1 then 1 else c.off;
    if off > 0 && arg[off] == '-' then ReadLong(sx, args, c.ind, arg[off + 1..])
    else ReadShort(sx, args, c.ind, off)
  }

  ghost predicate SameFrom(args: seq<string>, args': seq<string>, ind: nat) {
    |args| == |args'| && forall k :: ind <= k < |args| ==> args[k] == args'[k]
  }

  lemma ReadLongTail(sx: Syntax, args: seq<string>, args': seq<string>, ind: nat, text: string)
    requires SameFrom(args, args', ind) && ind < |args|
    ensures ReadLong(sx, args', ind, text) == ReadLong(sx, args, ind, text)
  {
  }

  lemma ReadShortTail(sx: Syntax, args: seq<string>, args': seq<string>, ind: nat, off: nat)
    requires SameFrom(args, args', ind) && ind < |args| && off < |args[ind]|
    ensures ReadShort(sx, args', ind, off) == ReadShort(sx, args, ind, off)
  {
    var rest := args[ind][off + 1..];
    if rest != "" {
      ReadLongTail(sx, args, args', ind, rest);
    } else if ind + 1 < |args| {
      ReadLongTail(sx, args, args', ind + 1, args[ind + 1]);
    }
  }

  /** What an option says depends only on the part of the vector from its argument on. */
  lemma ReadOptionTail(sx: Syntax, args: seq<string>, args': seq<string>, c: Cursor)
    requires |args| == |args'| && c.ind < |args| && args[c.ind..] == args'[c.ind..]
    requires InText(args, c) && (c.off == 0 ==> !IsPlain(sx, args[c.ind]))
    ensures args'[c.ind] == args[c.ind]
    ensures ReadOption(sx, args', c) == ReadOption(sx, args, c)
  {
    forall k | c.ind <= k < |args|
      ensures args[k] == args'[k]
    {
      assert args[k] == args[c.ind..][k - c.ind];
    }
    var arg := args[c.ind];
    var off := if c.off == 0 && |arg| > 1 then 1 else c.off;
    if off > 0 && arg[off] == '-' {
      ReadLongTail(sx, args, args', c.ind, arg[off + 1..]);
    } else {
      ReadShortTail(sx, args, args', c.ind, off);
    }
  }

  // ---------------------------------------------------------------- whole scans

  /** What is left to scan: arguments, then characters of the one being read. */
  function Left(args: seq<string>, c: Cursor): (nat, nat) {
    if c.ind >= |args| then (0, 0)
    else (|args| - c.ind, if c.off <= |args[c.ind]| then |args[c.ind]| - c.off else 0)
  }

  /** Lexicographic order of what is left. */
  predicate Less(x: (nat, nat), y: (nat, nat)) {
    x.0 < y.0 || (x.0 == y.0 && x.1 < y.1)
  }

  lemma LaterLeavesLess(args: seq<string>, c: Cursor, d: Cursor)
    requires c.ind < |args| && InText(args, c) && InText(args, d) && Later(c, d)
    ensures Less(Left(args, d), Left(args, c))
  {
  }

  datatype Call = End | Report(from: Cursor, reading: Reading)

  /** One call: plain arguments are passed over, then an option is read or the scan ends. */
  function NextCall(sx: Syntax, args: seq<string>, c: Cursor): (call: Call)
    requires c.off > 0 ==> InText(args, c)
    ensures call.Report? ==> InText(args, call.reading.next) && Later(c, call.reading.next) && c.ind < |args|
    ensures sx.Valid() && call.Report? ==> call.reading.code != -1
    decreases Left(args, c).0
  {
    if c.off > 0 then Report(c, ReadOption(sx, args, c))
    else if c.ind >= |args| then End
    else if IsPlain(sx, args[c.ind]) then NextCall(sx, args, Cursor(c.ind + 1, 0))
    else if args[c.ind] == "--" then End
    else Report(c, ReadOption(sx, args, c))
  }

  /** All reports of a scan, in order. */
  function Reports(sx: Syntax, args: seq<string>, c: Cursor): seq<Reading>
    requires c.off > 0 ==> InText(args, c)
    decreases Left(args, c).0, Left(args, c).1
  {
    match NextCall(sx, args, c)
    case End => []
    case Report(_, r) => [r] + Reports(sx, args, r.next)
  }

  /** The codes and arguments of a sequence of reports. */
  function Log(reports: seq<Reading>): (log: seq<(int, Option<string>)>)
    ensures |log| == |reports|
  {
    seq(|reports|, i requires 0 <= i < |reports| => (reports[i].code, reports[i].optarg))
  }

  lemma ReportsUnfold(sx: Syntax, args: seq<string>, c: Cursor)
    requires InText(args, c)
    ensures var call := NextCall(sx, args, c);
            && (call.End? ==> Log(Reports(sx, args, c)) == [])
            && (call.Report? ==>
                  && c.ind < |args| && Less(Left(args, call.reading.next), Left(args, c))
                  && Log(Reports(sx, args, c))
                       == [(call.reading.code, call.reading.optarg)] + Log(Reports(sx, args, call.reading.next)))
  {
    hide ReadOption;
  }

  function Copies<T>(x: T, n: nat): (s: seq<T>)
    ensures |s| == n && forall i :: 0 <= i < n ==> s[i] == x
  {
    seq(n, i => x)
  }

  /** For each argument the scan passes over, from `c.ind` on: does it belong to the options? */
  function Mask(sx: Syntax, args: seq<string>, c: Cursor): (mask: seq<bool>)
    requires c.off > 0 ==> InText(args, c)
    ensures c.ind <= |args| ==> c.ind + |mask| <= |args|
    decreases Left(args, c).0, Left(args, c).1
  {
    if c.off == 0 && c.ind >= |args| then []
    else if c.off == 0 && IsPlain(sx, args[c.ind]) then [false] + Mask(sx, args, Cursor(c.ind + 1, 0))
    else if c.off == 0 && args[c.ind] == "--" then [true]
    else
      var next := ReadOption(sx, args, c).next;
      Copies(true, next.ind - c.ind) + Mask(sx, args, next)
  }

  /** The arguments whose mark is `which`, in order. */
  function Select<T>(s: seq<T>, mask: seq<bool>, which: bool): (r: seq<T>)
    requires |s| == |mask|
    ensures |r| <= |s|
  {
    if s == [] then []
    else
      var front := Select(s[..|s| - 1], mask[..|s| - 1], which);
      if mask[|s| - 1] == which then front + [s[|s| - 1]] else front
  }

  /** The argument vector a finished scan leaves: options, then plain arguments, then the unscanned rest. */
  function Partitioned(sx: Syntax, args: seq<string>, from: nat): (r: seq<string>)
    requires from <= |args|
  {
    var mask := Mask(sx, args, Cursor(from, 0));
    var scanned := args[from..from + |mask|];
    args[..from] + Select(scanned, mask, true) + Select(scanned, mask, false) + args[from + |mask|..]
  }

  /** The index a finished scan leaves: that of the first argument behind the options. */
  function FirstPlain(sx: Syntax, args: seq<string>, from: nat): (r: nat)
    requires from <= |args|
    ensures from <= r <= |args|
  {
    var mask := Mask(sx, args, Cursor(from, 0));
    from + |Select(args[from..from + |mask|], mask, true)|
  }

  /** How many of the first `n` marks are `which`. */
  function Rank(mask: seq<bool>, n: nat, which: bool): nat
    requires n <= |mask|
  {
    if n == 0 then 0 else Rank(mask, n - 1, which) + (if mask[n - 1] == which then 1 else 0)
  }

  lemma {:induction false} SelectLength<T>(s: seq<T>, mask: seq<bool>, which: bool, n: nat)
    requires |s| == |mask| && n <= |mask|
    ensures |Select(s[..n], mask[..n], which)| == Rank(mask, n, which)
  {
    if n > 0 {
      SelectLength(s, mask, which, n - 1);
      assert s[..n][..n - 1] == s[..n - 1] && mask[..n][..n - 1] == mask[..n - 1];
    }
  }

  /** Selection is stable: an argument lands behind exactly the earlier arguments with the same mark. */
  lemma {:induction false} SelectStable<T>(s: seq<T>, mask: seq<bool>, which: bool, k: nat)
    requires |s| == |mask| && k < |s| && mask[k] == which
    ensures Rank(mask, k, which) < |Select(s, mask, which)|
    ensures Select(s, mask, which)[Rank(mask, k, which)] == s[k]
  {
    var n := |s| - 1;
    assert s[..n + 1] == s && mask[..n + 1] == mask;
    SelectLength(s, mask, which, n);
    if k < n {
      SelectStable(s[..n], mask[..n], which, k);
      RankPrefix(mask, n, k, which);
    }
  }

  lemma {:induction false} RankPrefix(mask: seq<bool>, n: nat, k: nat, which: bool)
    requires k <= n <= |mask|
    ensures Rank(mask[..n], k, which) == Rank(mask, k, which)
  {
    if k > 0 {
      RankPrefix(mask, n, k - 1, which);
    }
  }

  lemma {:induction false} SelectSplits<T>(s: seq<T>, mask: seq<bool>)
    requires |s| == |mask|
    ensures multiset(Select(s, mask, true)) + multiset(Select(s, mask, false)) == multiset(s)
    ensures |Select(s, mask, true)| + |Select(s, mask, false)| == |s|
  {
    if s != [] {
      var n := |s| - 1;
      var which := mask[n];
      SelectSplits(s[..n], mask[..n]);
      assert s == s[..n] + [s[n]];
      assert Select(s, mask, which) == Select(s[..n], mask[..n], which) + [s[n]];
      assert Select(s, mask, !which) == Select(s[..n], mask[..n], !which);
    }
  }

  lemma {:induction false} SelectAppend<T>(s: seq<T>, mask: seq<bool>, x: T, mark: bool, which: bool)
    requires |s| == |mask|
    ensures Select(s + [x], mask + [mark], which) == Select(s, mask, which) + (if mark == which then [x] else [])
  {
    assert (s + [x])[..|s|] == s && (mask + [mark])[..|s|] == mask;
  }

  lemma {:induction false} SelectAppendOptions<T>(s: seq<T>, mask: seq<bool>, t: seq<T>, which: bool)
    requires |s| == |mask|
    ensures Select(s + t, mask + Copies(true, |t|), which) == Select(s, mask, which) + (if which then t else [])
  {
    if t == [] {
      assert s + t == s && mask + Copies(true, |t|) == mask;
    } else {
      var n := |t| - 1;
      SelectAppendOptions(s, mask, t[..n], which);
      assert s + t == (s + t[..n]) + [t[n]];
      assert mask + Copies(true, |t|) == (mask + Copies(true, n)) + [true];
      SelectAppend(s + t[..n], mask + Copies(true, n), t[n], true, which);
    }
  }

  /** A finished scan only reorders. */
  lemma PartitionedPermutes(sx: Syntax, args: seq<string>, from: nat)
    requires from <= |args|
    ensures |Partitioned(sx, args, from)| == |args|
    ensures multiset(Partitioned(sx, args, from)) == multiset(args)
  {
    var mask := Mask(sx, args, Cursor(from, 0));
    var scanned := args[from..from + |mask|];
    SelectSplits(scanned, mask);
    Regrouped(args[..from], scanned, args[from + |mask|..], Select(scanned, mask, true), Select(scanned, mask, false));
    assert args == args[..from] + scanned + args[from + |mask|..];
  }

  lemma Regrouped<T>(a: seq<T>, s: seq<T>, d: seq<T>, p: seq<T>, q: seq<T>)
    requires multiset(p) + multiset(q) == multiset(s)
    ensures multiset(a + p + q + d) == multiset(a + s + d)
  {
    calc {
      multiset(a + p + q + d);
      multiset(a) + (multiset(p) + multiset(q)) + multiset(d);
      multiset(a) + multiset(s) + multiset(d);
      multiset(a + s + d);
    }
  }

  /** Only plain arguments are moved behind the options. */
  lemma {:induction false} MovedArgumentsArePlain(sx: Syntax, args: seq<string>, c: Cursor, k: nat)
    requires c.off > 0 ==> InText(args, c)
    requires k < |Mask(sx, args, c)| && !Mask(sx, args, c)[k]
    ensures c.ind + k < |args| && IsPlain(sx, args[c.ind + k])
    decreases Left(args, c).0, Left(args, c).1
  {
    hide ReadOption, IsPlain;
    if c.off == 0 && c.ind < |args| && IsPlain(sx, args[c.ind]) {
      if k > 0 {
        MovedArgumentsArePlain(sx, args, Cursor(c.ind + 1, 0), k - 1);
      }
    } else if !(c.off == 0 && (c.ind >= |args| || args[c.ind] == "--")) {
      var next := ReadOption(sx, args, c).next;
      MovedArgumentsArePlain(sx, args, next, k - (next.ind - c.ind));
    }
  }
}
