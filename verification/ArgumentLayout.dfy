/** How the reordered argument vector relates to the original one in the middle of a scan. */
module ArgumentLayout {
  import opened OptionSyntax
  import opened Permute

  /** How many of the options seen so far still stand behind the plain arguments. */
  function Late(ind: nat, nonoptEnd: int): int {
    if nonoptEnd == -1 then 0 else ind - nonoptEnd
  }

  function Arrangement(pre: seq<string>, early: seq<string>, plain: seq<string>, late: seq<string>,
                       rest: seq<string>): seq<string> {
    pre + early + plain + late + rest
  }

  /** After the options `opts` and the plain arguments `plain` have been passed, `now` holds: the options up
      to the last exchange, the plain arguments (from `ns` to `ne`), the later options, the rest. */
  ghost predicate Laid(orig: seq<string>, now: seq<string>, base: nat, opts: seq<string>, plain: seq<string>,
                       ns: int, ne: int) {
    && var ind := base + |opts| + |plain|;
       var late := Late(ind, ne);
       && ind <= |orig|
       && 0 <= late <= |opts|
       && (ns == -1 <==> plain == [])
       && (ns == -1 ==> ne == -1)
       && (ns != -1 ==> ns == base + |opts| - late)
       && (ne != -1 ==> ne == ns + |plain|)
       && now == Arrangement(orig[..base], opts[..|opts| - late], plain, opts[|opts| - late..], orig[ind..])
  }

  lemma LaidFresh(orig: seq<string>, base: nat)
    requires base <= |orig|
    ensures Laid(orig, orig, base, [], [], -1, -1)
  {
    assert orig == orig[..base] + orig[base..];
  }

  /** The part of the vector that has not been scanned is still the original. */
  lemma LaidTail(orig: seq<string>, now: seq<string>, base: nat, opts: seq<string>, plain: seq<string>,
                 ns: int, ne: int)
    requires Laid(orig, now, base, opts, plain, ns, ne)
    ensures |now| == |orig|
    ensures now[base + |opts| + |plain|..] == orig[base + |opts| + |plain|..]
  {
  }

  /** Opening an option behind plain arguments closes their block. */
  lemma LaidOpen(orig: seq<string>, now: seq<string>, base: nat, opts: seq<string>, plain: seq<string>, ns: int)
    requires ns != -1 && Laid(orig, now, base, opts, plain, ns, -1)
    ensures Laid(orig, now, base, opts, plain, ns, base + |opts| + |plain|)
  {
  }

  lemma LaidOptions(orig: seq<string>, now: seq<string>, base: nat, opts: seq<string>, plain: seq<string>,
                    ns: int, ne: int, k: nat)
    requires Laid(orig, now, base, opts, plain, ns, ne) && (ns == -1 || ne != -1)
    requires base + |opts| + |plain| + k <= |orig|
    ensures var ind := base + |opts| + |plain|;
            Laid(orig, now, base, opts + orig[ind..ind + k], plain, ns, ne)
  {
    hide Arrangement;
    var ind := base + |opts| + |plain|;
    var taken, rest := orig[ind..ind + k], orig[ind + k..];
    assert orig[ind..] == taken + rest;
    var early := |opts| - Late(ind, ne);
    assert (opts + taken)[..early] == opts[..early];
    assert (opts + taken)[early..] == opts[early..] + taken;
    if ns == -1 {
      assert opts[..early] == opts && opts[early..] == [];
      assert (opts + taken)[..|opts + taken|] == opts + taken && (opts + taken)[|opts + taken|..] == [];
      NoPlain(orig[..base], opts, taken, rest);
    } else {
      Regroup(orig[..base], opts[..early], plain, opts[early..], taken, rest);
    }
  }

  lemma NoPlain(a: seq<string>, b: seq<string>, t: seq<string>, e: seq<string>)
    ensures Arrangement(a, b, [], [], t + e) == Arrangement(a, b + t, [], [], e)
  {
  }

  lemma Regroup(a: seq<string>, b: seq<string>, c: seq<string>, d: seq<string>, t: seq<string>, e: seq<string>)
    ensures Arrangement(a, b, c, d, t + e) == Arrangement(a, b, c, d + t, e)
  {
  }

  lemma LaidPlain(orig: seq<string>, now: seq<string>, base: nat, opts: seq<string>, plain: seq<string>, ns: int)
    requires Laid(orig, now, base, opts, plain, ns, -1)
    requires base + |opts| + |plain| < |orig|
    ensures var ind := base + |opts| + |plain|;
            Laid(orig, now, base, opts, plain + [orig[ind]], if ns == -1 then ind else ns, -1)
  {
    var ind := base + |opts| + |plain|;
    var x, rest := orig[ind], orig[ind + 1..];
    assert orig[ind..] == [x] + rest;
    assert opts[..|opts|] == opts && opts[|opts|..] == [];
    assert orig[..base] + opts + plain + [] + ([x] + rest) == orig[..base] + opts + (plain + [x]) + [] + rest;
  }

  lemma LaidBounds(orig: seq<string>, now: seq<string>, base: nat, opts: seq<string>, plain: seq<string>,
                   ns: int, ne: int)
    requires ne != -1 && Laid(orig, now, base, opts, plain, ns, ne)
    ensures 0 <= ns < ne <= base + |opts| + |plain| <= |now|
  {
  }

  lemma LaidInOrder(orig: seq<string>, now: seq<string>, base: nat, opts: seq<string>, plain: seq<string>)
    requires base + |opts| + |plain| <= |orig| && plain != []
    requires now == Arrangement(orig[..base], opts, plain, [], orig[base + |opts| + |plain|..])
    ensures Laid(orig, now, base, opts, plain, base + |opts|, -1)
  {
    assert opts[..|opts|] == opts && opts[|opts|..] == [];
  }

  /** Exchanging the plain block with the options behind it brings all options to the front. */
  lemma LaidExchanged(orig: seq<string>, now: seq<string>, base: nat, opts: seq<string>, plain: seq<string>,
                      ns: int, ne: int, now': seq<string>)
    requires ne != -1 && Laid(orig, now, base, opts, plain, ns, ne)
    requires 0 <= ns < ne <= base + |opts| + |plain| <= |now|
    requires now' == Exchanged(now, ns, ne, base + |opts| + |plain|)
    ensures Laid(orig, now', base, opts, plain, base + |opts| + |plain| - (ne - ns), -1)
  {
    hide Exchanged, Arrangement;
    var ind := base + |opts| + |plain|;
    var early := |opts| - Late(ind, ne);
    ExchangedBlocks(now, orig[..base], opts[..early], plain, opts[early..], orig[ind..]);
    assert opts == opts[..early] + opts[early..];
    LaidInOrder(orig, now', base, opts, plain);
  }

  lemma ExchangedBlocks(now: seq<string>, a: seq<string>, b: seq<string>, c: seq<string>,
                        d: seq<string>, e: seq<string>)
    requires now == Arrangement(a, b, c, d, e)
    ensures Exchanged(now, |a| + |b|, |a| + |b| + |c|, |a| + |b| + |c| + |d|)
            == Arrangement(a, b + d, c, [], e)
  {
    var i, j, k := |a| + |b|, |a| + |b| + |c|, |a| + |b| + |c| + |d|;
    assert now[..i] == a + b && now[i..j] == c && now[j..k] == d && now[k..] == e;
    assert a + b + d + c + e == a + (b + d) + c + [] + e;
  }

  /** When nothing is late, the options come first, then the plain arguments, then the rest. */
  lemma LaidDone(orig: seq<string>, now: seq<string>, base: nat, opts: seq<string>, plain: seq<string>, ns: int)
    requires Laid(orig, now, base, opts, plain, ns, -1)
    ensures now == orig[..base] + opts + plain + orig[base + |opts| + |plain|..]
    ensures (if ns == -1 then base + |opts| + |plain| else ns) == base + |opts|
  {
  }

  /** `opts` and `plain` are what `mask` selects from the arguments passed since `base`. */
  ghost predicate Sorted(orig: seq<string>, base: nat, mask: seq<bool>, opts: seq<string>, plain: seq<string>) {
    && base + |mask| <= |orig|
    && opts == Select(orig[base..base + |mask|], mask, true)
    && plain == Select(orig[base..base + |mask|], mask, false)
  }

  lemma SortedOptions(orig: seq<string>, base: nat, mask: seq<bool>, opts: seq<string>, plain: seq<string>, k: nat)
    requires Sorted(orig, base, mask, opts, plain) && base + |mask| + k <= |orig|
    ensures var ind := base + |mask|;
            Sorted(orig, base, mask + Copies(true, k), opts + orig[ind..ind + k], plain)
  {
    var ind := base + |mask|;
    var taken := orig[ind..ind + k];
    assert orig[base..ind + k] == orig[base..ind] + taken;
    SelectAppendOptions(orig[base..ind], mask, taken, true);
    SelectAppendOptions(orig[base..ind], mask, taken, false);
  }

  lemma SortedPlain(orig: seq<string>, base: nat, mask: seq<bool>, opts: seq<string>, plain: seq<string>)
    requires Sorted(orig, base, mask, opts, plain) && base + |mask| < |orig|
    ensures Sorted(orig, base, mask + [false], opts, plain + [orig[base + |mask|]])
  {
    var ind := base + |mask|;
    assert orig[base..ind + 1] == orig[base..ind] + [orig[ind]];
    SelectAppend(orig[base..ind], mask, orig[ind], false, true);
    SelectAppend(orig[base..ind], mask, orig[ind], false, false);
  }

  /** The whole relation between the original vector, the present one and the marks given so far. */
  ghost predicate Passed(orig: seq<string>, now: seq<string>, base: nat, mask: seq<bool>,
                         opts: seq<string>, plain: seq<string>, ns: int, ne: int) {
    && Sorted(orig, base, mask, opts, plain)
    && Laid(orig, now, base, opts, plain, ns, ne)
    && |mask| == |opts| + |plain|
  }

  lemma PassedOptions(orig: seq<string>, now: seq<string>, base: nat, mask: seq<bool>,
                      opts: seq<string>, plain: seq<string>, ns: int, ne: int, k: nat)
    requires Passed(orig, now, base, mask, opts, plain, ns, ne) && (ns == -1 || ne != -1)
    requires base + |mask| + k <= |orig|
    ensures var ind := base + |mask|;
            Passed(orig, now, base, mask + Copies(true, k), opts + orig[ind..ind + k], plain, ns, ne)
  {
    hide Laid, Select;
    SortedOptions(orig, base, mask, opts, plain, k);
    LaidOptions(orig, now, base, opts, plain, ns, ne, k);
  }

  lemma PassedPlain(orig: seq<string>, now: seq<string>, base: nat, mask: seq<bool>,
                    opts: seq<string>, plain: seq<string>, ns: int)
    requires Passed(orig, now, base, mask, opts, plain, ns, -1)
    requires base + |mask| < |orig|
    ensures var ind := base + |mask|;
            Passed(orig, now, base, mask + [false], opts, plain + [orig[ind]], if ns == -1 then ind else ns, -1)
  {
    hide Laid, Select;
    SortedPlain(orig, base, mask, opts, plain);
    LaidPlain(orig, now, base, opts, plain, ns);
  }

  lemma PassedFresh(orig: seq<string>, base: nat)
    requires base <= |orig|
    ensures Passed(orig, orig, base, [], [], [], -1, -1)
  {
    LaidFresh(orig, base);
  }

  lemma PassedOpen(orig: seq<string>, now: seq<string>, base: nat, mask: seq<bool>,
                   opts: seq<string>, plain: seq<string>, ns: int)
    requires Passed(orig, now, base, mask, opts, plain, ns, -1) && ns != -1
    ensures Passed(orig, now, base, mask, opts, plain, ns, base + |mask|)
  {
    LaidOpen(orig, now, base, opts, plain, ns);
  }

  lemma PassedTail(orig: seq<string>, now: seq<string>, base: nat, mask: seq<bool>,
                   opts: seq<string>, plain: seq<string>, ns: int, ne: int)
    requires Passed(orig, now, base, mask, opts, plain, ns, ne)
    ensures |now| == |orig| && base + |mask| <= |orig|
    ensures now[base + |mask|..] == orig[base + |mask|..]
  {
    LaidTail(orig, now, base, opts, plain, ns, ne);
  }

  lemma PassedExchanged(orig: seq<string>, now: seq<string>, base: nat, mask: seq<bool>,
                        opts: seq<string>, plain: seq<string>, ns: int, ne: int)
    requires Passed(orig, now, base, mask, opts, plain, ns, ne) && ne != -1
    ensures 0 <= ns < ne <= base + |mask| <= |now|
    ensures Passed(orig, Exchanged(now, ns, ne, base + |mask|), base, mask, opts, plain,
                   base + |mask| - (ne - ns), -1)
  {
    LaidBounds(orig, now, base, opts, plain, ns, ne);
    LaidExchanged(orig, now, base, opts, plain, ns, ne, Exchanged(now, ns, ne, base + |mask|));
  }

  /** A scan that has marked everything it passes over leaves the stable partition. */
  lemma PassedAll(sx: Syntax, orig: seq<string>, now: seq<string>, base: nat, mask: seq<bool>,
                  opts: seq<string>, plain: seq<string>, ns: int)
    requires Passed(orig, now, base, mask, opts, plain, ns, -1)
    requires mask == Mask(sx, orig, Cursor(base, 0))
    ensures now == Partitioned(sx, orig, base)
    ensures (if ns == -1 then base + |mask| else ns) == FirstPlain(sx, orig, base)
  {
    hide Mask, Select, Partitioned, FirstPlain, Laid;
    LaidDone(orig, now, base, opts, plain, ns);
    PartitionedAs(sx, orig, base, mask);
  }

  lemma PartitionedAs(sx: Syntax, orig: seq<string>, base: nat, mask: seq<bool>)
    requires base <= |orig| && mask == Mask(sx, orig, Cursor(base, 0))
    ensures base + |mask| <= |orig|
    ensures var opts := Select(orig[base..base + |mask|], mask, true);
            && Partitioned(sx, orig, base)
                 == orig[..base] + opts + Select(orig[base..base + |mask|], mask, false) + orig[base + |mask|..]
            && FirstPlain(sx, orig, base) == base + |opts|
  {
    hide Mask, Select;
  }

  /** `mask` marks the arguments passed before `c`, in agreement with the marks of the whole scan. */
  ghost predicate MarksAgree(sx: Syntax, orig: seq<string>, base: nat, mask: seq<bool>, c: Cursor) {
    && InText(orig, c)
    && Mask(sx, orig, Cursor(base, 0)) == mask + Mask(sx, orig, c)
  }

  lemma MarkPlain(sx: Syntax, orig: seq<string>, base: nat, mask: seq<bool>, ind: nat)
    requires MarksAgree(sx, orig, base, mask, Cursor(ind, 0))
    requires ind < |orig| && IsPlain(sx, orig[ind])
    ensures MarksAgree(sx, orig, base, mask + [false], Cursor(ind + 1, 0))
    ensures NextCall(sx, orig, Cursor(ind, 0)) == NextCall(sx, orig, Cursor(ind + 1, 0))
  {
    assert mask + ([false] + Mask(sx, orig, Cursor(ind + 1, 0)))
        == (mask + [false]) + Mask(sx, orig, Cursor(ind + 1, 0));
  }

  lemma MarkOption(sx: Syntax, orig: seq<string>, base: nat, mask: seq<bool>, c: Cursor)
    requires MarksAgree(sx, orig, base, mask, c)
    requires c.ind < |orig| && (c.off == 0 ==> !IsPlain(sx, orig[c.ind]) && orig[c.ind] != "--")
    ensures var next := ReadOption(sx, orig, c).next;
            MarksAgree(sx, orig, base, mask + Copies(true, next.ind - c.ind), next)
    ensures NextCall(sx, orig, c) == Report(c, ReadOption(sx, orig, c))
  {
    hide ReadOption, IsPlain;
    var next := ReadOption(sx, orig, c).next;
    var k := next.ind - c.ind;
    assert mask + (Copies(true, k) + Mask(sx, orig, next)) == (mask + Copies(true, k)) + Mask(sx, orig, next);
  }

  lemma MarkEnd(sx: Syntax, orig: seq<string>, base: nat, mask: seq<bool>, ind: nat)
    requires MarksAgree(sx, orig, base, mask, Cursor(ind, 0)) && base <= |orig|
    ensures ind == |orig| ==> mask == Mask(sx, orig, Cursor(base, 0))
    ensures ind < |orig| && orig[ind] == "--" ==> mask + Copies(true, 1) == Mask(sx, orig, Cursor(base, 0))
    ensures ind == |orig| || (ind < |orig| && orig[ind] == "--") ==> NextCall(sx, orig, Cursor(ind, 0)).End?
  {
  }

  lemma MarkFresh(sx: Syntax, orig: seq<string>, base: nat)
    requires base <= |orig|
    ensures MarksAgree(sx, orig, base, [], Cursor(base, 0))
  {
  }
}
