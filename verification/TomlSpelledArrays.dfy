/** Arrays as users spell them for src/cpptoml.h: over several lines, with comments between the values and a comma
    behind the last one. */
module TomlSpelledArrays {
  import opened Wrappers
  import opened TomlDates
  import opened TomlText
  import opened TomlComments
  import opened TomlSpelling

  /** Well formed where `after` follows: arrays hold values of one kind other than boolean, and any character closes an
      array of scalars. */
  predicate Fits(v: Spelled, after: Place)
    decreases v, 1
  {
    if v.Listed? then IsGap(v.open) && FitItems(v.items, KindOfItems(v.items), after)
    else IsScalar(v) && MayFollow(v, after.text)
  }

  predicate FitItems(items: Items, kind: Kind, after: Place)
    decreases items, 0
  {
    match items
    case Done => true
    case Final(v, before, closer) =>
      && Fits(v, Put(before, Before([closer], after))) && KindSpelled(v) == kind != KBool && IsGap(before)
      && !IsBlank(closer) && closer != '#' && closer != ',' && (kind == KArray ==> closer == ']')
    case More(v, before, behind, rest) =>
      && Fits(v, Put(before, Before(",", Put(behind, SpellItems(rest, after)))))
      && KindSpelled(v) == kind != KBool && IsGap(before) && IsGap(behind) && FitItems(rest, kind, after)
  }

  function KindOfItems(items: Items): Kind {
    match items
    case Done => KInt
    case Final(v, _, _) => KindSpelled(v)
    case More(v, _, _, _) => KindSpelled(v)
  }

  // ---------------------------------------------------------------- how a value begins

  lemma ScalarStarts(v: Spelled)
    requires IsScalar(v)
    ensures var t := ScalarText(v); t != "" && !IsBlank(t[0]) && t[0] !in {'#', ',', ']', '['}
  {
    hide MomentText, GroupsText, CharsText, NumberMeans;
    if v.Number? {
      GroupsEaten(v.groups, "");
    } else if v.Moment? {
      MomentChars(v.day, v.fraction, v.zone);
      assert IsDateChar(MomentText(v.day, v.fraction, v.zone)[0]);
    }
  }

  lemma SpellStarts(v: Spelled, after: Place)
    requires Fits(v, after)
    ensures var p := Spell(v, after); Starts(p) && p.text[0] !in {',', ']'} && (p.text[0] == '[' <==> v.Listed?)
  {
    hide ScalarText, Put, SpellItems, FitItems;
    if !v.Listed? {
      ScalarStarts(v);
    }
  }

  lemma ItemsStart(items: Items, kind: Kind, after: Place)
    requires FitItems(items, kind, after)
    ensures var p := SpellItems(items, after); Starts(p) && (p.text[0] == ']' <==> items.Done?)
    ensures !items.Done? ==> (SpellItems(items, after).text[0] == '[' <==> kind.KArray?)
  {
    hide Spell, Put, Fits;
    match items
    case Done =>
    case Final(v, before, closer) => SpellStarts(v, Put(before, Before([closer], after)));
    case More(v, before, behind, rest) =>
      SpellStarts(v, Put(before, Before(",", Put(behind, SpellItems(rest, after)))));
  }

  // ---------------------------------------------------------------- what follows a value

  /** Blanks behind a string make no difference to a gap. */
  lemma LeftSkips(v: Spelled, p: Place)
    ensures SkipLines(Left(v, p)) == SkipLines(p)
  {
    SkipTwice(p.text);
  }

  lemma SkipTwice(s: string)
    ensures SkipBlanks(SkipBlanks(s)) == SkipBlanks(s)
  {
  }

  lemma GapBehind(v: Spelled, g: Gap, c: char, after: Place)
    requires IsGap(g) && !IsBlank(c) && c != '#'
    ensures SkipLines(Left(v, Put(g, Before([c], after)))) == Success(Before([c], after))
  {
    hide SkipLines, Put;
    LeftSkips(v, Put(g, Before([c], after)));
    GapSkipped(g, Before([c], after));
  }

  lemma FirstOff(c: char, after: Place)
    ensures var p := Before([c], after); p.text != "" && p.text[0] == c && Place(p.text[1..], p.lines) == after
  {
  }

  // ---------------------------------------------------------------- the kind of the first value

  predicate NoneEnds(s: string) {
    forall i :: 0 <= i < |s| ==> s[i] != ',' && s[i] != ']' && s[i] != '#'
  }

  lemma {:induction false} FirstLength(s: string, rest: string)
    requires NoneEnds(s)
    ensures FirstValueLength(s + rest) == |s| + FirstValueLength(rest)
  {
    if s == "" {
      assert s + rest == rest;
    } else {
      assert (s + rest)[1..] == s[1..] + rest;
      FirstLength(s[1..], rest);
    }
  }

  lemma NumberNoneEnds(v: Spelled)
    requires IsScalar(v) && (v.Number? || v.Moment?)
    ensures NoneEnds(ScalarText(v))
  {
    hide MomentText, GroupsText, NumberMeans, DayText, ClockText, ZoneText;
    if v.Number? {
      GroupsNumeric(v.groups);
      var digits := GroupsText(v.groups);
      assert forall i :: 0 <= i < |digits| ==> digits[i] != ',' && digits[i] != ']' && digits[i] != '#';
    } else {
      MomentChars(v.day, v.fraction, v.zone);
      var t := MomentText(v.day, v.fraction, v.zone);
      assert forall i :: 0 <= i < |t| ==> IsDateChar(t[i]);
    }
  }

  lemma {:induction false} FirstValueStops(s: string)
    ensures var n := FirstValueLength(s); n < |s| ==> s[n] in {',', ']', '#'}
  {
    if s != "" && s[0] !in {',', ']', '#'} {
      FirstValueStops(s[1..]);
    }
  }

  lemma {:induction false} DateLengthCut(s: string, more: string)
    requires more == "" || !IsDateChar(more[0])
    ensures DateLength(s + more) == DateLength(s)
  {
    if s == "" {
      assert s + more == more;
    } else {
      assert (s + more)[1..] == s[1..] + more;
      DateLengthCut(s[1..], more);
    }
  }

  lemma DateCut(s: string, more: string)
    requires more == "" || !IsDateChar(more[0])
    ensures IsDate(s + more) <==> IsDate(s)
  {
    DateLengthCut(s, more);
  }

  /** Cutting what follows before a comma, a closing bracket or a comment changes nothing. */
  lemma MayFollowCut(v: Spelled, rest: string)
    requires IsScalar(v) && MayFollow(v, rest) && (v.Number? || v.Moment?)
    ensures MayFollow(v, rest[..FirstValueLength(rest)])
  {
    hide ScalarText, FirstValueLength, IsDate;
    var n := FirstValueLength(rest);
    FirstValueStops(rest);
    assert ScalarText(v) + rest == (ScalarText(v) + rest[..n]) + rest[n..];
    DateCut(ScalarText(v) + rest[..n], rest[n..]);
  }

  lemma FirstKind(v: Spelled, after: Place)
    requires Fits(v, after)
    ensures var text := Spell(v, after).text; KindOf(text[..FirstValueLength(text)]) == Success(KindSpelled(v))
  {
    hide KindOf, ScalarText, FirstValueLength, Put, SpellItems, FitItems, IsScalar, MayFollow;
    var text := Spell(v, after).text;
    SpellStarts(v, after);
    if v.Number? || v.Moment? {
      NumberNoneEnds(v);
      FirstLength(ScalarText(v), after.text);
      var rest := after.text[..FirstValueLength(after.text)];
      assert text[..FirstValueLength(text)] == ScalarText(v) + rest;
      MayFollowCut(v, after.text);
      ScalarKind(v, rest);
    } else {
      FirstNotEmpty(text);
      OpensByChar(v, after);
      FirstCharKind(text[..FirstValueLength(text)]);
    }
  }

  lemma FirstNotEmpty(s: string)
    requires s != "" && s[0] !in {',', ']', '#'}
    ensures FirstValueLength(s) > 0
  {
  }

  lemma OpensByChar(v: Spelled, after: Place)
    requires Fits(v, after) && !v.Number? && !v.Moment?
    ensures var text := Spell(v, after).text;
            && text != "" && text[0] in {'\"', '\'', '[', 't', 'f'}
            && KindSpelled(v) == (if text[0] == '\"' || text[0] == '\'' then KString
                                  else if text[0] == '[' then KArray else KBool)
  {
    hide CharsText, Put, SpellItems, FitItems;
  }

  // ---------------------------------------------------------------- reading arrays

  /** A spelled value is read as what it means. */
  lemma {:induction false} ValueReads(v: Spelled, after: Place)
    requires Fits(v, after)
    ensures ParseValue(Spell(v, after)) == Success((Means(v), Left(v, after)))
    decreases v, 1
  {
    hide ParseArray, IsDate, NumberKind, ScalarText, Put, SpellItems, FitItems, IsScalar;
    if v.Listed? {
      ArrayReads(v, after);
      FirstCharKind(Spell(v, after).text);
    } else {
      ScalarReads(v, after);
    }
  }

  lemma {:induction false} ArrayReads(v: Spelled, after: Place)
    requires v.Listed? && Fits(v, after)
    ensures Spell(v, after).text != "" && ParseArray(Spell(v, after)) == Success((Means(v), after))
    decreases v, 0
  {
    hide KindOf, SkipLines, ParseValues, ParseArrays, Size, FirstValueLength, SpellItems, Put;
    var inner := SpellItems(v.items, after);
    var kind := KindOfItems(v.items);
    FirstOff('[', Put(v.open, inner));
    ItemsStart(v.items, kind, after);
    GapSkipped(v.open, inner);
    if v.items.Done? {
      DoneReads(after);
    } else {
      ItemsKind(v.items, kind, after);
      if kind.KArray? {
        ArraysRead(v.items, [], after);
      } else {
        ItemsRead(v.items, kind, [], after);
      }
      assert [] + ItemsMean(v.items) == ItemsMean(v.items);
    }
  }

  lemma DoneReads(after: Place)
    ensures var p := SpellItems(Done, after); p.text != "" && p.text[0] == ']' && Place(p.text[1..], p.lines) == after
  {
  }

  lemma ItemsKind(items: Items, kind: Kind, after: Place)
    requires !items.Done? && FitItems(items, kind, after)
    ensures var text := SpellItems(items, after).text;
            KindOf(text[..FirstValueLength(text)]) == Success(kind) && kind in {KString, KInt, KDate, KArray}
  {
    hide KindOf, FirstValueLength, Put, Spell, Fits;
    match items
    case Final(v, before, closer) =>
      FirstKind(v, Put(before, Before([closer], after)));
      NoFloats(v);
    case More(v, before, behind, rest) =>
      FirstKind(v, Put(before, Before(",", Put(behind, SpellItems(rest, after)))));
      NoFloats(v);
  }

  lemma NoFloats(v: Spelled)
    ensures KindSpelled(v) in {KString, KInt, KDate, KBool, KArray}
  {
  }

  lemma {:induction false} ItemsRead(items: Items, kind: Kind, vs: seq<Value>, after: Place)
    requires FitItems(items, kind, after) && kind != KArray
    ensures ParseValues(SpellItems(items, after), kind, vs) == Success((Arr(vs + ItemsMean(items)), after))
    decreases items, 2
  {
    hide KindOf, SkipLines, ParseValue, Size, Put, Spell, Fits, Left;
    match items
    case Done =>
      DoneReads(after);
      assert vs + [] == vs;
    case Final(v, before, closer) =>
      var q := Put(before, Before([closer], after));
      SpellStarts(v, q);
      ValueReads(v, q);
      GapBehind(v, before, closer, after);
      FirstOff(closer, after);
    case More(v, before, behind, rest) =>
      var r := Put(behind, SpellItems(rest, after));
      var q := Put(before, Before(",", r));
      SpellStarts(v, q);
      ValueReads(v, q);
      GapBehind(v, before, ',', r);
      FirstOff(',', r);
      ItemsStart(rest, kind, after);
      GapSkipped(behind, SpellItems(rest, after));
      ItemsRead(rest, kind, vs + [Means(v)], after);
      assert vs + [Means(v)] + ItemsMean(rest) == vs + ItemsMean(items);
  }

  lemma {:induction false} ArraysRead(items: Items, vs: seq<Value>, after: Place)
    requires FitItems(items, KArray, after)
    ensures ParseArrays(SpellItems(items, after), vs) == Success((Arr(vs + ItemsMean(items)), after))
    decreases items, 2
  {
    hide KindOf, SkipLines, ParseArray, Size, Put, Spell, Fits, Left;
    match items
    case Done =>
      DoneReads(after);
      assert vs + [] == vs;
    case Final(v, before, closer) =>
      var q := Put(before, Before([closer], after));
      SpellStarts(v, q);
      ListedIs(v);
      ArrayReads(v, q);
      GapSkipped(before, Before([closer], after));
      FirstOff(closer, after);
    case More(v, before, behind, rest) =>
      var r := Put(behind, SpellItems(rest, after));
      var q := Put(before, Before(",", r));
      SpellStarts(v, q);
      ListedIs(v);
      ArrayReads(v, q);
      GapSkipped(before, Before(",", r));
      FirstOff(',', r);
      ItemsStart(rest, KArray, after);
      GapSkipped(behind, SpellItems(rest, after));
      ArraysRead(rest, vs + [Means(v)], after);
      assert vs + [Means(v)] + ItemsMean(rest) == vs + ItemsMean(items);
  }

  lemma ListedIs(v: Spelled)
    ensures KindSpelled(v).KArray? <==> v.Listed?
  {
  }
}
