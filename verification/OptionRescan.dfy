/** Scanning again: a vector that src/argv_getopt.inl has put in order says the same as before, and stays as it is. */
module OptionRescan {
  import opened Wrappers
  import opened OptionSyntax

  /** The options that a scan from `c` passes, its plain arguments, and what it leaves unscanned. */
  function Opts(sx: Syntax, a: seq<string>, c: Cursor): seq<string>
    requires InText(a, c)
  {
    var m := Mask(sx, a, c);
    Select(a[c.ind..c.ind + |m|], m, true)
  }

  function Plain(sx: Syntax, a: seq<string>, c: Cursor): seq<string>
    requires InText(a, c)
  {
    var m := Mask(sx, a, c);
    Select(a[c.ind..c.ind + |m|], m, false)
  }

  function Unscanned(sx: Syntax, a: seq<string>, c: Cursor): seq<string>
    requires InText(a, c)
  {
    a[c.ind + |Mask(sx, a, c)|..]
  }

  // ---------------------------------------------------------------- selection from the front

  lemma {:induction false} SelectFirst<T>(x: T, mark: bool, s: seq<T>, mask: seq<bool>, which: bool)
    requires |s| == |mask|
    ensures Select([x] + s, [mark] + mask, which) == (if mark == which then [x] else []) + Select(s, mask, which)
  {
    var all, marks := [x] + s, [mark] + mask;
    if s == [] {
      assert all[..0] == [] && marks[..0] == [];
      assert all == [x] && marks == [mark];
    } else {
      var n := |s| - 1;
      SelectFirst(x, mark, s[..n], mask[..n], which);
      assert all[..|all| - 1] == [x] + s[..n] && marks[..|all| - 1] == [mark] + mask[..n];
    }
  }

  lemma {:induction false} SelectFirstOptions<T>(p: seq<T>, s: seq<T>, mask: seq<bool>, which: bool)
    requires |s| == |mask|
    ensures Select(p + s, Copies(true, |p|) + mask, which) == (if which then p else []) + Select(s, mask, which)
  {
    if p == [] {
      assert p + s == s && Copies(true, 0) + mask == mask;
    } else {
      var q := p[1..];
      SelectFirstOptions(q, s, mask, which);
      SelectFirst(p[0], true, q + s, Copies(true, |q|) + mask, which);
      assert p + s == [p[0]] + (q + s);
      assert Copies(true, |p|) + mask == [true] + (Copies(true, |q|) + mask);
      assert p == [p[0]] + q;
    }
  }

  // ---------------------------------------------------------------- one step of a scan

  lemma PlainStep(sx: Syntax, a: seq<string>, c: Cursor)
    requires InText(a, c) && c.off == 0 && c.ind < |a| && IsPlain(sx, a[c.ind])
    ensures var d := Cursor(c.ind + 1, 0);
      && Opts(sx, a, c) == Opts(sx, a, d)
      && Plain(sx, a, c) == [a[c.ind]] + Plain(sx, a, d)
      && Unscanned(sx, a, c) == Unscanned(sx, a, d)
  {
    hide ReadOption, IsPlain, Select;
    var d := Cursor(c.ind + 1, 0);
    var m := Mask(sx, a, d);
    assert Mask(sx, a, c) == [false] + m;
    assert a[c.ind..c.ind + 1 + |m|] == [a[c.ind]] + a[d.ind..d.ind + |m|];
    SelectFirst(a[c.ind], false, a[d.ind..d.ind + |m|], m, true);
    SelectFirst(a[c.ind], false, a[d.ind..d.ind + |m|], m, false);
  }

  lemma OptionStep(sx: Syntax, a: seq<string>, c: Cursor)
    requires InText(a, c) && c.ind < |a|
    requires c.off == 0 ==> !IsPlain(sx, a[c.ind]) && a[c.ind] != "--"
    ensures var d := ReadOption(sx, a, c).next;
      && Opts(sx, a, c) == a[c.ind..d.ind] + Opts(sx, a, d)
      && Plain(sx, a, c) == Plain(sx, a, d)
      && Unscanned(sx, a, c) == Unscanned(sx, a, d)
  {
    hide ReadOption, IsPlain, Select;
    var d := ReadOption(sx, a, c).next;
    var m := Mask(sx, a, d);
    assert Mask(sx, a, c) == Copies(true, d.ind - c.ind) + m;
    assert a[c.ind..d.ind + |m|] == a[c.ind..d.ind] + a[d.ind..d.ind + |m|];
    SelectFirstOptions(a[c.ind..d.ind], a[d.ind..d.ind + |m|], m, true);
    SelectFirstOptions(a[c.ind..d.ind], a[d.ind..d.ind + |m|], m, false);
  }

  lemma DashesStep(sx: Syntax, a: seq<string>, c: Cursor)
    requires c.off == 0 && c.ind < |a| && a[c.ind] == "--"
    ensures Opts(sx, a, c) == ["--"] && Plain(sx, a, c) == []
    ensures Unscanned(sx, a, c) == a[c.ind + 1..]
  {
    assert Mask(sx, a, c) == [true];
    assert a[c.ind..c.ind + 1] == ["--"];
    assert ["--"][..0] == [] && [true][..0] == [];
  }

  /** An argument that is half read belongs to the options. */
  lemma {:induction false} HalfRead(sx: Syntax, a: seq<string>, c: Cursor)
    requires InText(a, c) && c.off > 0
    ensures Opts(sx, a, c) != [] && Opts(sx, a, c)[0] == a[c.ind]
    decreases Left(a, c).0, Left(a, c).1
  {
    hide ReadOption, IsPlain, Mask, Opts;
    OptionStep(sx, a, c);
    var d := ReadOption(sx, a, c).next;
    if d.ind == c.ind {
      HalfRead(sx, a, d);
      assert a[c.ind..d.ind] == [];
    } else {
      assert a[c.ind..d.ind][0] == a[c.ind];
    }
  }

  // ---------------------------------------------------------------- where an option reads

  /** An option at the end of the vector that would take one more argument if there were one. */
  predicate Hungry(sx: Syntax, a: seq<string>, c: Cursor)
    requires c.ind < |a| && InText(a, c)
    requires c.off == 0 ==> !IsPlain(sx, a[c.ind])
  {
    assert InText(a + [""], c);
    ReadOption(sx, a + [""], c).next.ind > |a|
  }

  function MovedTo(r: Reading, ind: nat): Reading {
    r.(next := Cursor(ind, r.next.off))
  }

  /** A long option that is not hungry reads the same wherever the arguments it takes stand. */
  lemma LongLocal(sx: Syntax, a: seq<string>, i: nat, b: seq<string>, j: nat, text: string)
    requires i < |a| && ReadLong(sx, a + [""], i, text).next.ind <= |a|
    requires var n := ReadLong(sx, a, i, text).next.ind - i; j + n <= |b| && b[j + 1..j + n] == a[i + 1..i + n]
    ensures var r := ReadLong(sx, a, i, text);
      ReadLong(sx, b, j, text) == MovedTo(r, j + (r.next.ind - i))
  {
    var n := ReadLong(sx, a, i, text).next.ind - i;
    if n == 2 {
      assert b[j + 1] == b[j + 1..j + n][0] == a[i + 1..i + n][0] == a[i + 1];
    }
  }

  lemma ShortLocal(sx: Syntax, a: seq<string>, i: nat, b: seq<string>, j: nat, off: nat)
    requires i < |a| && off < |a[i]| && ReadShort(sx, a + [""], i, off).next.ind <= |a|
    requires j < |b| && b[j] == a[i]
    requires var n := ReadShort(sx, a, i, off).next.ind - i; j + n <= |b| && b[j..j + n] == a[i..i + n]
    ensures var r := ReadShort(sx, a, i, off);
      ReadShort(sx, b, j, off) == MovedTo(r, j + (r.next.ind - i))
  {
    hide ReadLong;
    var n := ReadShort(sx, a, i, off).next.ind - i;
    var rest := a[i][off + 1..];
    assert (a + [""])[i] == a[i];
    if n >= 2 {
      assert b[j + 1] == b[j..j + n][1] == a[i..i + n][1] == a[i + 1];
      assert (a + [""])[i + 1] == a[i + 1];
    }
    if IsLongAfterW(sx, a, i, off) {
      if rest != "" {
        assert b[j + 1..j + n] == b[j..j + n][1..] == a[i..i + n][1..] == a[i + 1..i + n];
        LongLocal(sx, a, i, b, j, rest);
      } else if i + 1 < |a| {
        assert b[j + 2..j + n] == b[j..j + n][2..] == a[i..i + n][2..] == a[i + 2..i + n];
        LongLocal(sx, a, i + 1, b, j + 1, a[i + 1]);
      }
    }
  }

  /** The letter at `off` is the W that announces a long option. */
  predicate IsLongAfterW(sx: Syntax, a: seq<string>, i: nat, off: nat)
    requires i < |a| && off < |a[i]|
  {
    var c, rest := a[i][off], a[i][off + 1..];
    var at := IndexOf(sx.options, c);
    && !(c == ':' || (c == '-' && rest != "") || at == |sx.options|)
    && c == 'W' && OptionSyntax.At(sx.options, at + 1) == ';'
  }

  /** An option that is not hungry reads the same wherever its own arguments stand. */
  lemma ReadLocal(sx: Syntax, a: seq<string>, c: Cursor, b: seq<string>, j: nat)
    requires c.ind < |a| && InText(a, c) && (c.off == 0 ==> !IsPlain(sx, a[c.ind])) && !Hungry(sx, a, c)
    requires j < |b| && b[j] == a[c.ind]
    requires var n := ReadOption(sx, a, c).next.ind - c.ind; j + n <= |b| && b[j..j + n] == a[c.ind..c.ind + n]
    ensures var r := ReadOption(sx, a, c);
      ReadOption(sx, b, Cursor(j, c.off)) == MovedTo(r, j + (r.next.ind - c.ind))
  {
    hide ReadLong, ReadShort;
    var arg := a[c.ind];
    assert (a + [""])[c.ind] == arg;
    var off := if c.off == 0 && |arg| > 1 then 1 else c.off;
    var n := ReadOption(sx, a, c).next.ind - c.ind;
    if off > 0 && arg[off] == '-' {
      assert b[j + 1..j + n] == b[j..j + n][1..] == a[c.ind..c.ind + n][1..] == a[c.ind + 1..c.ind + n];
      LongLocal(sx, a, c.ind, b, j, arg[off + 1..]);
    } else {
      ShortLocal(sx, a, c.ind, b, j, off);
    }
  }

  /** A hungry long option stands at the end, and takes an argument wherever there is one. */
  lemma LongTakes(sx: Syntax, a: seq<string>, i: nat, b: seq<string>, j: nat, text: string)
    requires i < |a| && ReadLong(sx, a + [""], i, text).next.ind > |a| && j + 1 < |b|
    ensures i + 1 == |a| && ReadLong(sx, a, i, text).next == Cursor(|a|, 0)
    ensures ReadLong(sx, b, j, text).next.ind == j + 2
  {
  }

  lemma ShortTakes(sx: Syntax, a: seq<string>, i: nat, b: seq<string>, j: nat, off: nat)
    requires i < |a| && off < |a[i]| && ReadShort(sx, a + [""], i, off).next.ind > |a|
    requires j + (|a| - i) < |b| && b[j..j + (|a| - i)] == a[i..]
    ensures b[j] == a[i] && ReadShort(sx, a, i, off).next == Cursor(|a|, 0)
    ensures ReadShort(sx, b, j, off).next.ind > j + (|a| - i)
  {
    hide ReadLong;
    var n, rest := |a| - i, a[i][off + 1..];
    assert b[j] == b[j..j + n][0] == a[i..][0] == a[i];
    assert (a + [""])[i] == a[i];
    if i + 1 < |a| {
      assert b[j + 1] == b[j..j + n][1] == a[i..][1] == a[i + 1];
      assert (a + [""])[i + 1] == a[i + 1];
    }
    if IsLongAfterW(sx, a, i, off) {
      if rest != "" {
        LongTakes(sx, a, i, b, j, rest);
      } else if i + 1 < |a| {
        LongTakes(sx, a, i + 1, b, j + 1, a[i + 1]);
      }
    }
  }

  /** A hungry option stands at the end, and in front of anything else it takes more. */
  lemma HungryTakes(sx: Syntax, a: seq<string>, c: Cursor, b: seq<string>, j: nat)
    requires c.ind < |a| && InText(a, c) && (c.off == 0 ==> !IsPlain(sx, a[c.ind])) && Hungry(sx, a, c)
    requires j + (|a| - c.ind) < |b| && b[j..j + (|a| - c.ind)] == a[c.ind..]
    ensures b[j] == a[c.ind] && ReadOption(sx, a, c).next == Cursor(|a|, 0)
    ensures ReadOption(sx, b, Cursor(j, c.off)).next.ind > j + (|a| - c.ind)
  {
    hide ReadLong, ReadShort;
    var arg, n := a[c.ind], |a| - c.ind;
    assert (a + [""])[c.ind] == arg;
    assert b[j] == b[j..j + n][0] == a[c.ind..][0] == arg;
    var off := if c.off == 0 && |arg| > 1 then 1 else c.off;
    if off > 0 && arg[off] == '-' {
      LongTakes(sx, a, c.ind, b, j, arg[off + 1..]);
    } else {
      ShortTakes(sx, a, c.ind, b, j, off);
    }
  }

  // ---------------------------------------------------------------- scanning the ordered vector

  /** No option of the scan is hungry. */
  predicate Fed(sx: Syntax, a: seq<string>, c: Cursor)
    requires InText(a, c)
    decreases Left(a, c).0, Left(a, c).1
  {
    if c.off == 0 && c.ind >= |a| then true
    else if c.off == 0 && IsPlain(sx, a[c.ind]) then Fed(sx, a, Cursor(c.ind + 1, 0))
    else if c.off == 0 && a[c.ind] == "--" then true
    else !Hungry(sx, a, c) && Fed(sx, a, ReadOption(sx, a, c).next)
  }

  predicate AllPlain(sx: Syntax, s: seq<string>) {
    forall k :: 0 <= k < |s| ==> IsPlain(sx, s[k])
  }

  /** Nothing but plain arguments is left. */
  lemma {:induction false} OnlyPlain(sx: Syntax, b: seq<string>, j: nat)
    requires j <= |b| && AllPlain(sx, b[j..])
    ensures var d := Cursor(j, 0);
      && Log(Reports(sx, b, d)) == [] && Opts(sx, b, d) == [] && Plain(sx, b, d) == b[j..] && Unscanned(sx, b, d) == []
    decreases |b| - j
  {
    hide IsPlain, ReadOption, Select, Opts, Plain, Unscanned, Reports, Log, Mask;
    var d := Cursor(j, 0);
    ReportsUnfold(sx, b, d);
    if j == |b| {
      NothingLeft(sx, b, d);
    } else {
      assert b[j..][0] == b[j] && b[j..][1..] == b[j + 1..];
      PlainStep(sx, b, d);
      OnlyPlain(sx, b, j + 1);
      SkipsPlain(sx, b, d);
      assert [b[j]] + b[j + 1..] == b[j..];
    }
  }

  lemma NothingLeft(sx: Syntax, a: seq<string>, c: Cursor)
    requires c.off == 0 && c.ind == |a|
    ensures Opts(sx, a, c) == [] && Plain(sx, a, c) == [] && Unscanned(sx, a, c) == []
    ensures Log(Reports(sx, a, c)) == []
  {
  }

  lemma SkipsPlain(sx: Syntax, a: seq<string>, c: Cursor)
    requires InText(a, c) && c.off == 0 && c.ind < |a| && IsPlain(sx, a[c.ind])
    ensures Log(Reports(sx, a, c)) == Log(Reports(sx, a, Cursor(c.ind + 1, 0)))
  {
    hide IsPlain, ReadOption, Log;
    assert NextCall(sx, a, c) == NextCall(sx, a, Cursor(c.ind + 1, 0));
  }

  /** The scan of `b` from `j` sees the options of `a` from `c` in front of `x`: it reports the same, finds the same
      options, and passes or leaves `x`. */
  ghost predicate SeesTheSame(sx: Syntax, a: seq<string>, c: Cursor, b: seq<string>, j: nat, x: seq<string>)
    requires InText(a, c)
  {
    var d := Cursor(j, c.off);
    && InText(b, d)
    && Log(Reports(sx, b, d)) == Log(Reports(sx, a, c))
    && Opts(sx, b, d) == Opts(sx, a, c)
    && Plain(sx, b, d) + Unscanned(sx, b, d) == x
  }

  lemma {:induction false} InFront(sx: Syntax, a: seq<string>, c: Cursor, b: seq<string>, j: nat, x: seq<string>)
    requires InText(a, c) && Fed(sx, a, c)
    requires j <= |b| && b[j..] == Opts(sx, a, c) + x
    requires (Unscanned(sx, a, c) == [] && AllPlain(sx, x)) || Dashed(sx, a, c)
    ensures SeesTheSame(sx, a, c, b, j, x)
    decreases Left(a, c).0, Left(a, c).1
  {
    hide IsPlain, ReadOption, Select, Opts, Plain, Unscanned, Reports, Log, Mask, Hungry;
    if c.off == 0 && c.ind == |a| {
      NothingLeft(sx, a, c);
      assert [] + x == x;
      OnlyPlain(sx, b, j);
      assert x + [] == x;
    } else if c.off == 0 && IsPlain(sx, a[c.ind]) {
      PlainStep(sx, a, c);
      SkipsPlain(sx, a, c);
      InFront(sx, a, Cursor(c.ind + 1, 0), b, j, x);
    } else if c.off == 0 && a[c.ind] == "--" {
      DashesStep(sx, a, c);
      assert b[j] == (b[j..])[0] == "--";
      assert b[j + 1..] == b[j..][1..] == x;
      DashesStep(sx, b, Cursor(j, 0));
      DashesEnd(sx, a, c);
      DashesEnd(sx, b, Cursor(j, 0));
      assert [] + x == x;
    } else {
      OptionInFront(sx, a, c, b, j, x);
    }
  }

  /** The scan ends at a "--". */
  predicate Dashed(sx: Syntax, a: seq<string>, c: Cursor)
    requires InText(a, c)
    decreases Left(a, c).0, Left(a, c).1
  {
    if c.off == 0 && c.ind >= |a| then false
    else if c.off == 0 && IsPlain(sx, a[c.ind]) then Dashed(sx, a, Cursor(c.ind + 1, 0))
    else if c.off == 0 && a[c.ind] == "--" then true
    else Dashed(sx, a, ReadOption(sx, a, c).next)
  }

  lemma DashesEnd(sx: Syntax, a: seq<string>, c: Cursor)
    requires c.off == 0 && c.ind < |a| && a[c.ind] == "--"
    ensures Log(Reports(sx, a, c)) == []
  {
  }

  lemma {:induction false} OptionInFront(sx: Syntax, a: seq<string>, c: Cursor, b: seq<string>, j: nat, x: seq<string>)
    requires InText(a, c) && Fed(sx, a, c) && c.ind < |a|
    requires c.off == 0 ==> !IsPlain(sx, a[c.ind]) && a[c.ind] != "--"
    requires j <= |b| && b[j..] == Opts(sx, a, c) + x
    requires (Unscanned(sx, a, c) == [] && AllPlain(sx, x)) || Dashed(sx, a, c)
    ensures SeesTheSame(sx, a, c, b, j, x)
    decreases Left(a, c).0, Left(a, c).1, 0
  {
    hide IsPlain, ReadOption, Select, Opts, Plain, Unscanned, Reports, Log, Mask, Hungry;
    var r := ReadOption(sx, a, c);
    var n := r.next.ind - c.ind;
    OptionStep(sx, a, c);
    OptionStands(sx, a, c, b, j, x);
    ReadLocal(sx, a, c, b, j);
    InFront(sx, a, r.next, b, j + n, x);
    OptionStep(sx, b, Cursor(j, c.off));
    ReportsOption(sx, a, c);
    ReportsOption(sx, b, Cursor(j, c.off));
  }

  lemma ReportsOption(sx: Syntax, a: seq<string>, c: Cursor)
    requires InText(a, c) && c.ind < |a|
    requires c.off == 0 ==> !IsPlain(sx, a[c.ind]) && a[c.ind] != "--"
    ensures var r := ReadOption(sx, a, c);
      Log(Reports(sx, a, c)) == [(r.code, r.optarg)] + Log(Reports(sx, a, r.next))
  {
    hide IsPlain, ReadOption, Log, Reports;
    ReportsUnfold(sx, a, c);
  }

  lemma {:induction false} PlainsArePlain(sx: Syntax, a: seq<string>, c: Cursor)
    requires InText(a, c)
    ensures AllPlain(sx, Plain(sx, a, c))
    ensures Dashed(sx, a, c) || Unscanned(sx, a, c) == []
    decreases Left(a, c).0, Left(a, c).1
  {
    hide IsPlain, ReadOption, Select, Opts, Plain, Unscanned, Mask;
    if c.off == 0 && c.ind == |a| {
      NothingLeft(sx, a, c);
    } else if c.off == 0 && IsPlain(sx, a[c.ind]) {
      PlainStep(sx, a, c);
      PlainsArePlain(sx, a, Cursor(c.ind + 1, 0));
    } else if c.off == 0 && a[c.ind] == "--" {
      DashesStep(sx, a, c);
    } else {
      OptionStep(sx, a, c);
      PlainsArePlain(sx, a, ReadOption(sx, a, c).next);
    }
  }

  /** Without plain arguments the vector is in order already. */
  lemma {:induction false} InOrder(sx: Syntax, a: seq<string>, c: Cursor)
    requires InText(a, c) && Plain(sx, a, c) == []
    ensures Opts(sx, a, c) + Unscanned(sx, a, c) == a[c.ind..]
    decreases Left(a, c).0, Left(a, c).1
  {
    hide IsPlain, ReadOption, Select, Opts, Plain, Unscanned, Mask;
    if c.off == 0 && c.ind == |a| {
      NothingLeft(sx, a, c);
    } else if c.off == 0 && IsPlain(sx, a[c.ind]) {
      PlainStep(sx, a, c);
    } else if c.off == 0 && a[c.ind] == "--" {
      DashesStep(sx, a, c);
      assert a[c.ind..] == ["--"] + a[c.ind + 1..];
    } else {
      OptionStep(sx, a, c);
      var d := ReadOption(sx, a, c).next;
      InOrder(sx, a, d);
      assert a[c.ind..] == a[c.ind..d.ind] + a[d.ind..];
      assert a[c.ind..d.ind] + Opts(sx, a, d) + Unscanned(sx, a, d)
          == a[c.ind..d.ind] + (Opts(sx, a, d) + Unscanned(sx, a, d));
    }
  }

  lemma PartitionedParts(sx: Syntax, a: seq<string>, from: nat)
    requires from <= |a|
    ensures var c := Cursor(from, 0);
      && Partitioned(sx, a, from) == a[..from] + Opts(sx, a, c) + Plain(sx, a, c) + Unscanned(sx, a, c)
      && FirstPlain(sx, a, from) == from + |Opts(sx, a, c)|
  {
  }

  /** A scan with a hungry option finds more options where other arguments follow. */
  lemma {:induction false} MoreOptions(sx: Syntax, a: seq<string>, c: Cursor, b: seq<string>, j: nat, x: seq<string>)
    requires InText(a, c) && !Fed(sx, a, c) && x != []
    requires j <= |b| && b[j..] == Opts(sx, a, c) + x
    ensures InText(b, Cursor(j, c.off)) && |Opts(sx, b, Cursor(j, c.off))| > |Opts(sx, a, c)|
    decreases Left(a, c).0, Left(a, c).1
  {
    hide IsPlain, ReadOption, Select, Opts, Plain, Unscanned, Mask, Hungry;
    if c.off == 0 && IsPlain(sx, a[c.ind]) {
      PlainStep(sx, a, c);
      MoreOptions(sx, a, Cursor(c.ind + 1, 0), b, j, x);
    } else {
      OptionStep(sx, a, c);
      var d := ReadOption(sx, a, c).next;
      var n := d.ind - c.ind;
      OptionStands(sx, a, c, b, j, x);
      if Hungry(sx, a, c) {
        HungryIsLast(sx, a, c);
        assert b[j..j + n] == b[j..][..n] == a[c.ind..];
        HungryTakes(sx, a, c, b, j);
      } else {
        ReadLocal(sx, a, c, b, j);
        MoreOptions(sx, a, d, b, j + n, x);
      }
      OptionStep(sx, b, Cursor(j, c.off));
    }
  }

  lemma HungryIsLast(sx: Syntax, a: seq<string>, c: Cursor)
    requires c.ind < |a| && InText(a, c) && (c.off == 0 ==> !IsPlain(sx, a[c.ind]) && a[c.ind] != "--")
    requires Hungry(sx, a, c)
    ensures ReadOption(sx, a, c).next == Cursor(|a|, 0) && Opts(sx, a, c) == a[c.ind..]
  {
    hide IsPlain, ReadOption, Opts, Hungry;
    assert (a + [""])[c.ind..c.ind + (|a| - c.ind)] == a[c.ind..];
    HungryTakes(sx, a, c, a + [""], c.ind);
    OptionStep(sx, a, c);
    NothingLeft(sx, a, Cursor(|a|, 0));
    assert a[c.ind..|a|] + [] == a[c.ind..];
  }

  /** The option at `c` stands at `j` in a vector that goes on with the options of the scan. */
  lemma OptionStands(sx: Syntax, a: seq<string>, c: Cursor, b: seq<string>, j: nat, x: seq<string>)
    requires InText(a, c) && c.ind < |a| && (c.off == 0 ==> !IsPlain(sx, a[c.ind]) && a[c.ind] != "--")
    requires j <= |b| && b[j..] == Opts(sx, a, c) + x
    ensures var d := ReadOption(sx, a, c).next;
      var n := d.ind - c.ind;
      && j < |b| && b[j] == a[c.ind]
      && j + n <= |b| && b[j..j + n] == a[c.ind..c.ind + n]
      && b[j + n..] == Opts(sx, a, d) + x
  {
    hide IsPlain, ReadOption, Opts;
    OptionStep(sx, a, c);
    var d := ReadOption(sx, a, c).next;
    var own, o := a[c.ind..d.ind], Opts(sx, a, d);
    assert own + o + x == own + (o + x);
    TakenApart(b, j, own, o + x);
    if own == [] {
      HalfRead(sx, a, d);
      TakenApart(b, j, o, x);
    }
  }

  lemma TakenApart<T>(b: seq<T>, j: nat, p: seq<T>, rest: seq<T>)
    requires j <= |b| && b[j..] == p + rest
    ensures j + |p| <= |b| && b[j..j + |p|] == p && b[j + |p|..] == rest
    ensures p != [] ==> b[j] == p[0]
  {
    assert |b| == j + |p| + |rest|;
    assert b[j..j + |p|] == b[j..][..|p|];
    assert b[j + |p|..] == b[j..][|p|..];
    assert p != [] ==> b[j..][0] == p[0];
  }

  /** Scanning the ordered vector again reports the same and leaves it as it is, exactly unless its last option
      lacks an argument that a plain argument behind it would now supply. */
  lemma ScanAgain(sx: Syntax, args: seq<string>, from: nat)
    requires from <= |args|
    ensures var c, again := Cursor(from, 0), Partitioned(sx, args, from);
      && from <= |again|
      && (Fed(sx, args, c) || Plain(sx, args, c) == []
          <==> && Log(Reports(sx, again, c)) == Log(Reports(sx, args, c))
               && Partitioned(sx, again, from) == again
               && FirstPlain(sx, again, from) == FirstPlain(sx, args, from))
  {
    hide Partitioned, FirstPlain, Opts, Plain, Unscanned, Reports, Log, Fed, Dashed, AllPlain;
    var c := Cursor(from, 0);
    var b := Partitioned(sx, args, from);
    var o, x := Opts(sx, args, c), Plain(sx, args, c) + Unscanned(sx, args, c);
    PartitionedParts(sx, args, from);
    assert b == args[..from] + (o + x);
    assert b[from..] == o + x;
    if Plain(sx, args, c) == [] {
      InOrder(sx, args, c);
      assert x == Unscanned(sx, args, c);
      assert b == args;
    } else if Fed(sx, args, c) {
      PlainsArePlain(sx, args, c);
      assert Unscanned(sx, args, c) == [] ==> x == Plain(sx, args, c);
      InFront(sx, args, c, b, from, x);
      PartitionedParts(sx, b, from);
      assert b[..from] == args[..from];
      assert args[..from] + o + Plain(sx, b, c) + Unscanned(sx, b, c)
          == args[..from] + (o + (Plain(sx, b, c) + Unscanned(sx, b, c)));
    } else {
      MoreOptions(sx, args, c, b, from, x);
      PartitionedParts(sx, b, from);
    }
  }

  /** That exception is real: behind a plain argument `-o` lacks its argument, in front of it `-o` takes it. */
  lemma HungryOption()
    ensures var sx := Syntax("o:", []);
      && Partitioned(sx, ["x", "-o"], 0) == ["-o", "x"]
      && Log(Reports(sx, ["x", "-o"], Cursor(0, 0))) == [('?' as int, None)]
      && Log(Reports(sx, ["-o", "x"], Cursor(0, 0))) == [('o' as int, Some("x"))]
  {
    hide Partitioned, Opts, Plain, Unscanned, Reports, Log, Select;
    var sx := Syntax("o:", []);
    var a, b := ["x", "-o"], ["-o", "x"];
    assert IndexOf("o:", 'o') == 0;
    assert ReadOption(sx, a, Cursor(1, 0)) == Reading('?' as int, None, Some('o' as int), None, None, Cursor(2, 0));
    assert ReadOption(sx, b, Cursor(0, 0)) == Reading('o' as int, Some("x"), None, None, None, Cursor(2, 0));
    SkipsPlain(sx, a, Cursor(0, 0));
    PlainStep(sx, a, Cursor(0, 0));
    ReportsOption(sx, a, Cursor(1, 0));
    ReportsOption(sx, b, Cursor(0, 0));
    NothingLeft(sx, a, Cursor(2, 0));
    NothingLeft(sx, b, Cursor(2, 0));
    OptionStep(sx, a, Cursor(1, 0));
    PartitionedParts(sx, a, 0);
    assert a[1..2] == ["-o"];
  }
}
