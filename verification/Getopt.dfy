/** The option scanner of src/argv_getopt.inl, reordering its argument vector as it goes. */
module Getopt {
  import opened Wrappers
  import opened OptionSyntax
  import opened ArgumentLayout
  import opened Permute

  /** The scanning pointer: nowhere, or `off` characters into argument `index`. */
  datatype Place = EmptyPlace | InArg(index: nat, off: nat)

  class Scanner {
    const sx: Syntax
    const argv: array<string>
    var optind: nat
    var optreset: bool
    var optarg: Option<string>
    var optopt: int
    var longIndex: Option<nat>
    var flagVars: map<nat, int>
    var place: Place
    var nonoptStart: int
    var nonoptEnd: int

    // The vector when the scan began, where it began, and what has been passed since.
    ghost var orig: seq<string>
    ghost var base: nat
    ghost var mask: seq<bool>
    ghost var opts: seq<string>
    ghost var plain: seq<string>

    ghost function Position(): Cursor
      reads this`optind, this`place
    {
      Cursor(optind, if place.EmptyPlace? then 0 else place.off)
    }

    /** The vector is laid out according to the marks given so far. */
    ghost predicate Marked()
      reads this`optind, this`nonoptStart, this`nonoptEnd, this`orig,
            this`base, this`mask, this`opts, this`plain, argv
    {
      && optind == base + |mask|
      && Passed(orig, argv[..], base, mask, opts, plain, nonoptStart, nonoptEnd)
    }

    /** A scan is under way (or just beginning). */
    ghost predicate Scanning()
      reads this`optind, this`place, this`nonoptStart, this`nonoptEnd, this`orig,
            this`base, this`mask, this`opts, this`plain, argv
    {
      && sx.Valid() && base > 0
      && Marked()
      && (place.InArg? ==> place.index == optind && place.off > 0 && (nonoptStart == -1 || nonoptEnd != -1))
      && (place.EmptyPlace? && nonoptEnd != -1 ==> nonoptEnd < optind)
      && MarksAgree(sx, orig, base, mask, Position())
    }

    /** The index lies behind the vector, as it does at first when there are no arguments at all. */
    ghost predicate Beyond()
      reads this`optind, this`place, this`nonoptStart, this`nonoptEnd
    {
      optind > argv.Length && place.EmptyPlace? && nonoptStart == -1 && nonoptEnd == -1
    }

    ghost predicate Resetting()
      reads this`optreset, this`optind
    {
      optreset || optind == 0
    }

    ghost predicate Valid()
      reads this`optreset, this`optind, this`place, this`nonoptStart, this`nonoptEnd, this`orig,
            this`base, this`mask, this`opts, this`plain, argv
    {
      sx.Valid() && (Resetting() || Beyond() || Scanning())
    }

    /** Start a scan of the present vector at `optind`. */
    ghost method Begin()
      requires sx.Valid() && 0 < optind <= argv.Length
      requires place.EmptyPlace? && nonoptStart == -1 && nonoptEnd == -1
      modifies this`orig, this`base, this`mask, this`opts, this`plain
      ensures Scanning() && orig == argv[..] && base == optind && mask == []
    {
      ghost var now := argv[..];
      PassedFresh(now, optind);
      MarkFresh(sx, now, optind);
      orig, base, mask, opts, plain := now, optind, [], [], [];
      assert argv[..] == now;
    }

    constructor (sx: Syntax, argv: array<string>)
      requires sx.Valid()
      ensures this.sx == sx && this.argv == argv
      ensures Valid() && optind == 1 && !optreset && place.EmptyPlace?
      ensures argv.Length > 0 ==> Scanning() && orig == argv[..] && base == 1
    {
      hide Passed, MarksAgree;
      this.sx, this.argv := sx, argv;
      optind, optreset, optarg, optopt := 1, false, None, '?' as int;
      longIndex, flagVars := None, map[];
      place, nonoptStart, nonoptEnd := EmptyPlace, -1, -1;
      new;
      if argv.Length > 0 {
        Begin();
      }
    }

    /** Passing `k` arguments that belong to an option, just before `optind` moves over them. */
    ghost method PassOptions(k: nat)
      requires Marked() && optind + k <= |orig|
      requires nonoptStart == -1 || nonoptEnd != -1
      modifies this`mask, this`opts, this`plain
      ensures mask == old(mask) + Copies(true, k)
      ensures Passed(orig, argv[..], base, mask, opts, plain, nonoptStart, nonoptEnd)
    {
      ghost var now := argv[..];
      PassedOptions(orig, now, base, mask, opts, plain, nonoptStart, nonoptEnd, k);
      mask, opts := mask + Copies(true, k), opts + orig[optind..optind + k];
      assert argv[..] == now;
    }

    /** Passing a plain argument while no option is late. */
    method PassPlain()
      requires Marked() && nonoptEnd == -1 && optind < |orig|
      modifies this`mask, this`opts, this`plain, this`nonoptStart, this`optind
      ensures Marked() && mask == old(mask) + [false]
    {
      ghost var now := argv[..];
      PassedPlain(orig, now, base, mask, opts, plain, nonoptStart);
      if nonoptStart == -1 {
        nonoptStart := optind;
      }
      mask, plain := mask + [false], plain + [orig[optind]];
      optind := optind + 1;
      assert argv[..] == now;
    }

    /** Bring the late options before the plain block. */
    method Flush()
      requires Marked() && nonoptEnd != -1 && nonoptEnd < optind
      modifies argv, this`nonoptStart, this`nonoptEnd
      ensures Marked() && nonoptEnd == -1
      ensures nonoptStart == optind - (old(nonoptEnd) - old(nonoptStart))
    {
      hide Passed, Exchanged;
      PassedExchanged(orig, argv[..], base, mask, opts, plain, nonoptStart, nonoptEnd);
      PermuteArgs(argv, nonoptStart, nonoptEnd, optind);
      nonoptStart := optind - (nonoptEnd - nonoptStart);
      nonoptEnd := -1;
    }

    /** The fields after a call that reports `reading`, given the two that a call may leave alone. */
    ghost predicate Told(code: int, reading: Reading, optopt0: int, flagVars0: map<nat, int>, longIndex0: Option<nat>)
      reads this
    {
      && code == reading.code
      && optarg == reading.optarg
      && optopt == (if reading.optopt.Some? then reading.optopt.value else optopt0)
      && longIndex == (if reading.longIndex.Some? then reading.longIndex else longIndex0)
      && flagVars == (match reading.flagged case Some(f) => flagVars0[f.0 := f.1] case None => flagVars0)
    }

    /** The scan of the long-option table. */
    method FindLong(name: string) returns (m: LongMatch)
      ensures m == LongLookup(name, sx.table, 0, None)
      ensures LongMatchMeans(name, sx.table, m)
    {
      LongLookupMeaning(name, sx.table, 0, None);
      var found: Option<nat> := None;
      for i := 0 to |sx.table|
        invariant found.Some? ==> found.value < |sx.table|
        invariant LongLookup(name, sx.table, i, found) == LongLookup(name, sx.table, 0, None)
      {
        if name <= sx.table[i].name {
          if |sx.table[i].name| == |name| {
            return Match(i);
          }
          if found.None? {
            found := Some(i);
          } else {
            return Ambiguous;
          }
        }
      }
      m := if found.Some? then Match(found.value) else NoMatch;
    }

    method ParseLongOptions(text: string) returns (r: int)
      requires optind < argv.Length && optarg.None?
      modifies this`optind, this`optarg, this`optopt, this`longIndex, this`flagVars
      ensures var reading := ReadLong(sx, argv[..], old(optind), text);
              && Told(r, reading, old(optopt), old(flagVars), old(longIndex))
              && optind == reading.next.ind
    {
      optind := optind + 1;
      var eq := IndexOf(text, '=');
      var hasEqual := eq < |text|;
      var m := FindLong(text[..eq]);
      match m
      case Ambiguous =>
        optopt := 0;
        return '?' as int;
      case NoMatch =>
        optopt := 0;
        return '?' as int;
      case Match(i) =>
        var o := sx.table[i];
        if o.hasArg.NoArgument? && hasEqual {
          optopt := if o.flag.None? then o.val else 0;
          return sx.BadArg();
        }
        if !o.hasArg.NoArgument? {
          if hasEqual {
            optarg := Some(text[eq + 1..]);
          } else if o.hasArg.RequiredArgument? {
            optarg := if optind < argv.Length then Some(argv[optind]) else None;
            optind := optind + 1;
          }
        }
        if o.hasArg.RequiredArgument? && optarg.None? {
          optopt := if o.flag.None? then o.val else 0;
          optind := optind - 1;
          return sx.BadArg();
        }
        longIndex := Some(i);
        if o.flag.Some? {
          flagVars := flagVars[o.flag.value := o.val];
          return 0;
        }
        return o.val;
    }

    /** The letter W of a "W;" option string: what follows it is a long option. */
    method ParseLongAfterW(rest: string) returns (r: int)
      requires optind < argv.Length && optarg.None?
      modifies this`optind, this`optarg, this`optopt, this`longIndex, this`flagVars, this`place
      ensures var reading :=
                if rest != "" then ReadLong(sx, argv[..], old(optind), rest)
                else if old(optind) + 1 == argv.Length then
                  Complaint(sx.BadArg(), 'W' as int, Cursor(old(optind) + 1, 0))
                else ReadLong(sx, argv[..], old(optind) + 1, argv[old(optind) + 1]);
              && Told(r, reading, old(optopt), old(flagVars), old(longIndex))
              && optind == reading.next.ind
      ensures place.EmptyPlace?
    {
      var text := rest;
      if rest == "" {
        optind := optind + 1;
        if optind >= argv.Length {
          place := EmptyPlace;
          optopt := 'W' as int;
          return sx.BadArg();
        }
        text := argv[optind];
      }
      r := ParseLongOptions(text);
      place := EmptyPlace;
    }

    /** The argument of an option letter that takes one: the rest of its word, or the next word. */
    method TakeArgument(optchar: char, oli: nat, rest: string) returns (r: int)
      requires optind < argv.Length && optarg.None?
      modifies this`optind, this`optarg, this`optopt, this`place
      ensures var i, required := old(optind), At(sx.options, oli + 2) != ':';
              var reading :=
                if rest != "" then Reading(optchar as int, Some(rest), None, None, None, Cursor(i + 1, 0))
                else if !required then Reading(optchar as int, None, None, None, None, Cursor(i + 1, 0))
                else if i + 1 == argv.Length then Complaint(sx.BadArg(), optchar as int, Cursor(i + 1, 0))
                else Reading(optchar as int, Some(argv[i + 1]), None, None, None, Cursor(i + 2, 0));
              && Told(r, reading, old(optopt), flagVars, longIndex)
              && optind == reading.next.ind
      ensures place.EmptyPlace?
    {
      if rest != "" {
        optarg := Some(rest);
      } else if At(sx.options, oli + 2) != ':' {
        optind := optind + 1;
        if optind >= argv.Length {
          place := EmptyPlace;
          optopt := optchar as int;
          return sx.BadArg();
        }
        optarg := Some(argv[optind]);
      }
      place := EmptyPlace;
      optind := optind + 1;
      return optchar as int;
    }

    /** The option letter under the scanning pointer. */
    method ParseShortOption() returns (r: int)
      requires place.InArg? && place.index == optind < argv.Length && place.off < |argv[optind]|
      requires argv[optind][place.off] == '-' ==> place.off == 0 && '-' in sx.options
      requires optarg.None?
      modifies this`optind, this`optarg, this`optopt, this`longIndex, this`flagVars, this`place
      ensures var reading := ReadShort(sx, argv[..], old(optind), old(place).off);
              && Told(r, reading, old(optopt), old(flagVars), old(longIndex))
              && Position() == reading.next
              && (place.InArg? ==> place.index == optind && place.off > 0)
    {
      var arg, off := argv[optind], place.off + 1;
      var optchar := arg[place.off];
      var atEnd := off == |arg|;
      place := if atEnd then EmptyPlace else InArg(optind, off);
      var oli := IndexOf(sx.options, optchar);
      if optchar == ':' || (optchar == '-' && !atEnd) || oli == |sx.options| {
        if optchar == '-' && atEnd {
          // A lone dash that is not an option letter never gets here: it is a plain argument.
          assert false;
        }
        if atEnd {
          optind := optind + 1;
        }
        optopt := optchar as int;
        return '?' as int;
      }
      if optchar == 'W' && At(sx.options, oli + 1) == ';' {
        r := ParseLongAfterW(arg[off..]);
        return r;
      }
      if At(sx.options, oli + 1) != ':' {
        if atEnd {
          optind := optind + 1;
        }
      } else {
        r := TakeArgument(optchar, oli, arg[off..]);
        return r;
      }
      return optchar as int;
    }

    /** The scan of `args` from `from` is over: the vector is its stable partition and a next scan may begin. */
    ghost predicate Finished(args: seq<string>, from: nat)
      requires from <= |args|
      reads this`optind, this`place, this`nonoptStart, this`nonoptEnd, this`orig,
            this`base, this`mask, this`opts, this`plain, argv
    {
      && argv[..] == Partitioned(sx, args, from)
      && optind == FirstPlain(sx, args, from)
      && Scanning() && orig == argv[..] && base == optind && place.EmptyPlace?
    }

    /** The end of the vector or a "--": bring late options forward and point at the first plain argument. */
    method Finish()
      requires sx.Valid() && base > 0 && Marked() && mask == Mask(sx, orig, Cursor(base, 0))
      requires place.EmptyPlace? && (nonoptEnd != -1 ==> nonoptEnd < optind)
      modifies argv, this`optind, this`nonoptStart, this`nonoptEnd,
               this`orig, this`base, this`mask, this`opts, this`plain
      ensures Finished(old(orig), old(base))
    {
      hide Passed, Partitioned, FirstPlain, MarksAgree;
      SameHere();
      if nonoptEnd != -1 {
        Flush();
      }
      PassedAll(sx, orig, argv[..], base, mask, opts, plain, nonoptStart);
      if nonoptStart != -1 {
        optind := nonoptStart;
      }
      nonoptStart, nonoptEnd := -1, -1;
      Begin();
    }

    /** The marks still to come continue those already given. */
    ghost predicate OnTrack()
      reads this`optind, this`place, this`nonoptStart, this`nonoptEnd, this`orig,
            this`base, this`mask, this`opts, this`plain, argv
    {
      && Marked()
      && MarksAgree(sx, orig, base, mask, Position())
    }

    /** One turn of the `start` loop, on a plain argument. */
    method SkipOne()
      requires OnTrack() && place.EmptyPlace? && (nonoptEnd != -1 ==> nonoptEnd < optind)
      requires optind < |orig| && IsPlain(sx, orig[optind])
      modifies argv, this`optind, this`nonoptStart, this`nonoptEnd, this`mask, this`opts, this`plain
      ensures OnTrack() && nonoptEnd == -1 && optind == old(optind) + 1
      ensures NextCall(sx, orig, Position()) == NextCall(sx, orig, old(Position()))
    {
      hide Passed, MarksAgree;
      MarkPlain(sx, orig, base, mask, optind);
      if nonoptEnd != -1 {
        Flush();
      }
      PassPlain();
    }

    /** The `start` loop: pass plain arguments until something else turns up. */
    method SkipPlain()
      requires Scanning() && place.EmptyPlace?
      modifies argv, this`optind, this`nonoptStart, this`nonoptEnd, this`mask, this`opts, this`plain
      ensures OnTrack() && |orig| == argv.Length && (nonoptEnd != -1 ==> nonoptEnd < optind)
      ensures optind < argv.Length ==> orig[optind] == argv[optind] && !IsPlain(sx, argv[optind])
      ensures NextCall(sx, orig, Position()) == NextCall(sx, orig, old(Position()))
    {
      ghost var start := Position();
      while optind < argv.Length && IsPlain(sx, argv[optind])
        invariant nonoptEnd != -1 ==> nonoptEnd < optind
        invariant OnTrack()
        invariant NextCall(sx, orig, start) == NextCall(sx, orig, Position())
        decreases argv.Length - optind
      {
        SameHere();
        SkipOne();
      }
      SameHere();
    }

    /** The argument at `optind` has not been moved. */
    lemma SameHere()
      requires Marked()
      ensures |orig| == argv.Length
      ensures optind < argv.Length ==> orig[optind] == argv[optind]
    {
      PassedTail(orig, argv[..], base, mask, opts, plain, nonoptStart, nonoptEnd);
      assert optind < argv.Length ==> orig[optind] == orig[optind..][0] == argv[..][optind..][0] == argv[optind];
    }

    /** An option closes the block of plain arguments before it. */
    method OpenOption()
      requires Marked()
      modifies this`nonoptEnd
      ensures Marked() && (nonoptStart == -1 || nonoptEnd != -1)
      ensures nonoptEnd == if nonoptStart != -1 && old(nonoptEnd) == -1 then optind else old(nonoptEnd)
    {
      if nonoptStart != -1 && nonoptEnd == -1 {
        PassedOpen(orig, argv[..], base, mask, opts, plain, nonoptStart);
        nonoptEnd := optind;
      }
    }

    /** A "--" counts as the last option. */
    method PassDashes()
      requires Marked() && optind < |orig| && (nonoptStart == -1 || nonoptEnd != -1)
      requires nonoptEnd != -1 ==> nonoptEnd <= optind
      modifies this`optind, this`mask, this`opts, this`plain
      ensures Marked() && mask == old(mask) + Copies(true, 1) && optind == old(optind) + 1
      ensures nonoptEnd != -1 ==> nonoptEnd < optind
    {
      PassOptions(1);
      optind := optind + 1;
    }

    /** An argument that is not plain: a "--" ends the scan, anything else is an option. */
    method OpenArgument() returns (ended: bool)
      requires sx.Valid() && base > 0 && OnTrack() && place.EmptyPlace? && (nonoptEnd != -1 ==> nonoptEnd < optind)
      requires optind < |orig| == argv.Length && orig[optind] == argv[optind] && !IsPlain(sx, orig[optind])
      modifies argv, this`optind, this`place, this`nonoptStart, this`nonoptEnd,
               this`orig, this`base, this`mask, this`opts, this`plain
      ensures ended <==> old(argv[optind]) == "--"
      ensures ended ==> Finished(old(orig), old(base))
      ensures !ended ==> AtOption(Cursor(optind, 0)) && orig == old(orig) && base == old(base) && optind == old(optind)
    {
      hide Passed, Partitioned, FirstPlain, MarksAgree;
      MarkEnd(sx, orig, base, mask, optind);
      OpenOption();
      if argv[optind] == "--" {
        PassDashes();
        Finish();
        return true;
      }
      place := InArg(optind, if |argv[optind]| > 1 then 1 else 0);
      return false;
    }

    /** The block that moves the scanning pointer on: it ends the scan or finds an option. */
    method FindOption() returns (ended: bool)
      requires Scanning() && place.EmptyPlace?
      modifies argv, this`optind, this`place, this`nonoptStart, this`nonoptEnd,
               this`orig, this`base, this`mask, this`opts, this`plain
      ensures ended ==> NextCall(sx, old(orig), old(Position())).End? && Finished(old(orig), old(base))
      ensures !ended ==> AtOption(Cursor(optind, 0)) && orig == old(orig) && base == old(base)
      ensures !ended ==> NextCall(sx, orig, old(Position())) == NextCall(sx, orig, Cursor(optind, 0))
    {
      SkipPlain();
      MarkEnd(sx, orig, base, mask, optind);
      if optind >= argv.Length {
        Finish();
        return true;
      }
      ended := OpenArgument();
    }

    /** The scanning pointer is on an option that begins, or goes on, at `c`. */
    ghost predicate AtOption(c: Cursor)
      reads this`optind, this`place, this`nonoptStart, this`nonoptEnd, this`orig,
            this`base, this`mask, this`opts, this`plain, argv
    {
      && Marked() && c.ind == optind < |orig| == argv.Length
      && MarksAgree(sx, orig, base, mask, c)
      && (nonoptStart == -1 || nonoptEnd != -1)
      && (c.off == 0 ==> !IsPlain(sx, orig[optind]) && orig[optind] != "--")
      && place == InArg(optind, if c.off == 0 && |orig[optind]| > 1 then 1 else c.off)
    }

    /** The option under the scanning pointer, as far as the vector's text is concerned. */
    method ReadText(ghost args: seq<string>, ghost c: Cursor) returns (r: int)
      requires args == argv[..] && c.ind == optind < argv.Length && InText(args, c) && optarg.None?
      requires c.off == 0 ==> !IsPlain(sx, argv[optind])
      requires place == InArg(optind, if c.off == 0 && |argv[optind]| > 1 then 1 else c.off)
      modifies this`optind, this`place, this`optarg, this`optopt, this`longIndex, this`flagVars
      ensures var reading := ReadOption(sx, args, c);
              Told(r, reading, old(optopt), old(flagVars), old(longIndex)) && Position() == reading.next
      ensures place.InArg? ==> place.index == optind && place.off > 0
    {
      if place.off > 0 && argv[optind][place.off] == '-' {
        r := ParseLongOptions(argv[optind][place.off + 1..]);
        place := EmptyPlace;
      } else {
        r := ParseShortOption();
      }
    }

    /** The same with the marks kept up to date. */
    method ReadHere(ghost c: Cursor) returns (r: int)
      requires sx.Valid() && base > 0 && AtOption(c) && optarg.None?
      modifies this`optind, this`place, this`optarg, this`optopt, this`longIndex, this`flagVars,
               this`mask, this`opts, this`plain
      ensures var reading := ReadOption(sx, orig, c);
              Told(r, reading, old(optopt), old(flagVars), old(longIndex)) && Position() == reading.next
      ensures Scanning()
    {
      hide Passed, MarksAgree, ReadOption;
      ghost var now := argv[..];
      SameText(now, c);
      MarkOption(sx, orig, base, mask, c);
      PassOptions(ReadOption(sx, orig, c).next.ind - optind);
      r := ReadText(now, c);
      assert argv[..] == now;
    }

    lemma SameText(now: seq<string>, c: Cursor)
      requires AtOption(c) && now == argv[..]
      ensures InText(now, c) && argv[optind] == orig[optind] && nonoptEnd <= optind
      ensures ReadOption(sx, now, c) == ReadOption(sx, orig, c)
    {
      PassedTail(orig, argv[..], base, mask, opts, plain, nonoptStart, nonoptEnd);
      ReadOptionTail(sx, orig, argv[..], c);
    }

    /** The vector, the start and the position that the next call works with. */
    ghost function Vector(): seq<string>
      reads this`optreset, this`optind, this`orig, argv
    {
      if Resetting() then argv[..] else orig
    }

    ghost function From(): nat
      reads this`optreset, this`optind, this`base
    {
      if Resetting() then (if optind == 0 then 1 else optind) else base
    }

    ghost function Here(): Cursor
      reads this`optreset, this`optind, this`place, this`base
    {
      if Resetting() then Cursor(From(), 0) else Position()
    }

    /** A request to start over drops the state of the previous scan. */
    method Restart()
      requires Valid()
      modifies this`optind, this`optreset, this`place, this`nonoptStart, this`nonoptEnd,
               this`orig, this`base, this`mask, this`opts, this`plain
      ensures !Resetting() && sx.Valid()
      ensures Position() == old(Here())
      ensures if optind > argv.Length then Beyond() else Scanning() && orig == old(Vector()) && base == old(From())
    {
      if optind == 0 {
        optind, optreset := 1, true;
      }
      if optreset {
        nonoptStart, nonoptEnd := -1, -1;
        optreset := false;
        place := EmptyPlace;
        if optind <= argv.Length {
          Begin();
        }
      }
    }

    /** What a call on the scan of `args` from `from`, standing at `c`, has done. */
    ghost predicate Answered(r: int, args: seq<string>, from: nat, c: Cursor,
                             optopt0: int, flagVars0: map<nat, int>, longIndex0: Option<nat>)
      reads this, argv
    {
      && from <= |args| && InText(args, c) && Scanning()
      && match NextCall(sx, args, c)
         case End => r == -1 && Finished(args, from)
         case Report(_, reading) =>
           && Told(r, reading, optopt0, flagVars0, longIndex0)
           && Position() == reading.next && orig == args && base == from
    }

    /** The option that the scan stands on. */
    method NextOption(ghost args: seq<string>, ghost from: nat, ghost c0: Cursor, ghost c: Cursor) returns (r: int)
      requires sx.Valid() && base > 0 && AtOption(c) && optarg.None? && orig == args && base == from && from <= |args|
      requires InText(args, c0) && NextCall(sx, args, c0) == NextCall(sx, args, c)
      modifies this`optind, this`place, this`optarg, this`optopt, this`longIndex, this`flagVars,
               this`mask, this`opts, this`plain
      ensures Answered(r, args, from, c0, old(optopt), old(flagVars), old(longIndex))
      ensures Scanning()
    {
      MarkOption(sx, args, base, mask, c);
      r := ReadHere(c);
    }

    /** One call in the middle of a scan. */
    method Next() returns (r: int)
      requires Scanning() && optarg.None?
      modifies argv, this`optind, this`place, this`optarg, this`optopt, this`longIndex, this`flagVars,
               this`nonoptStart, this`nonoptEnd, this`orig, this`base, this`mask, this`opts, this`plain
      ensures Answered(r, old(orig), old(base), old(Position()), old(optopt), old(flagVars), old(longIndex))
      ensures Scanning()
    {
      ghost var args, from, c := orig, base, Position();
      if place.EmptyPlace? {
        var ended := FindOption();
        if ended {
          return -1;
        }
        r := NextOption(args, from, c, Cursor(optind, 0));
      } else {
        r := NextOption(args, from, c, c);
      }
    }

    /** One call of getopt_long: -1 at the end of the scan, otherwise what the next option says. The second
        case is that of an index that lay behind the vector from the start. */
    method GetoptLong() returns (r: int)
      requires Valid()
      modifies this, argv
      ensures || Answered(r, old(Vector()), old(From()), old(Here()), old(optopt), old(flagVars), old(longIndex))
              || (r == -1 && Beyond() && unchanged(argv) && Position() == old(Here()))
      ensures !optreset
    {
      hide Passed, MarksAgree;
      Restart();
      optarg := None;
      if optind > argv.Length {
        return -1;
      }
      r := Next();
    }

    /** Calling getopt_long until it answers -1: the reports are those of the unordered vector, and the
        vector ends up as its stable partition. */
    method ScanAll() returns (log: seq<(int, Option<string>)>)
      requires Valid() && Here().ind <= argv.Length
      modifies this, argv
      ensures old(From()) <= |old(Vector())| && Finished(old(Vector()), old(From()))
      ensures InText(old(Vector()), old(Here()))
      ensures log == Log(Reports(sx, old(Vector()), old(Here())))
    {
      hide Passed, MarksAgree, Partitioned, FirstPlain, NextCall;
      ghost var args, from, start, c := Vector(), From(), Here(), Here();
      HereInText();
      log := [];
      while true
        invariant Valid() && args == Vector() && from == From() && c == Here()
        invariant |args| == argv.Length && InText(args, start) && InText(args, c)
        invariant log + Log(Reports(sx, args, c)) == Log(Reports(sx, args, start))
        decreases Left(args, c).0, Left(args, c).1
      {
        ReportsUnfold(sx, args, c);
        var r := GetoptLong();
        if r == -1 {
          return;
        }
        log := log + [(r, optarg)];
        c := Position();
      }
    }

    lemma HereInText()
      requires Valid() && Here().ind <= argv.Length
      ensures InText(Vector(), Here()) && |Vector()| == argv.Length
    {
    }
  }
}
