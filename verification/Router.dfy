/** The backend selector of src/RouterSeletor.cc: ranges of two-character names as intervals of 16-bit numbers. */
module Router {
  import opened Wrappers

  // ---------------------------------------------------------------- the encoding

  /** What a byte cell keeps of a character. */
  function Byte(c: char): nat {
    c as int % 0x100
  }

  /** Two cells as a 16-bit number; larger values wrap around. */
  function Index(hi: nat, lo: nat): nat {
    (hi * 0x200 + lo) % 0x1_0000
  }

  predicate IsAscii(c: char) {
    '\0' < c < 128 as char
  }

  predicate AllAscii(s: string) {
    forall i :: 0 <= i < |s| ==> IsAscii(s[i])
  }

  /** The order of two-character names. */
  predicate LexLess(a: (char, char), b: (char, char)) {
    a.0 < b.0 || (a.0 == b.0 && a.1 < b.1)
  }

  predicate LexLeq(a: (char, char), b: (char, char)) {
    a == b || LexLess(a, b)
  }

  /** On 7-bit names the encoding does not wrap and keeps the order exactly. */
  lemma EncodingKeepsOrder(a: (char, char), b: (char, char))
    requires IsAscii(a.0) && IsAscii(a.1) && IsAscii(b.0) && IsAscii(b.1)
    ensures Index(Byte(a.0), Byte(a.1)) == a.0 as int * 0x200 + a.1 as int < 0x1_0000
    ensures Index(Byte(a.0), Byte(a.1)) < Index(Byte(b.0), Byte(b.1)) <==> LexLess(a, b)
    ensures Index(Byte(a.0), Byte(a.1)) == Index(Byte(b.0), Byte(b.1)) <==> a == b
  {
    hide Byte, Index;
    ByteOf(a.0);
    ByteOf(a.1);
    ByteOf(b.0);
    ByteOf(b.1);
    IndexOf(a.0 as int, a.1 as int);
    IndexOf(b.0 as int, b.1 as int);
  }

  lemma ByteOf(c: char)
    requires IsAscii(c)
    ensures Byte(c) == c as int < 128
  {
  }

  lemma IndexOf(hi: nat, lo: nat)
    requires hi < 128 && lo < 128
    ensures Index(hi, lo) == hi * 0x200 + lo
  {
  }

  // ---------------------------------------------------------------- range texts

  /** The cells and the write position while a range text is copied. */
  datatype Cells = Cells(bytes: seq<nat>, p: nat, split: bool, i: nat)

  const BLANK: seq<nat> := ['-' as int, '-' as int, 'z' as int, 'z' as int, 0, 0, 0, 0]

  /** The copying loop: at most five characters, and a tilde moves on to the right end. */
  function Copied(range: string, c: Cells): (r: Cells)
    requires |c.bytes| == 8 && c.p <= c.i + 2 && c.i <= 5
    ensures |r.bytes| == 8 && r.i <= 5
    decreases 5 - c.i
  {
    if c.i < |range| && range[c.i] != '\0' && c.i < 5 then
      if range[c.i] == '~' then Copied(range, Cells(c.bytes, 2, true, c.i + 1))
      else Copied(range, Cells(c.bytes[c.p := Byte(range[c.i])], c.p + 1, c.split, c.i + 1))
    else c
  }

  /** A text without a tilde names one letter or one pair: both ends are the same. */
  function Finished(range: string, c: Cells): (bytes: seq<nat>)
    requires |c.bytes| == 8 && c.i <= |range|
    ensures |bytes| == 8
  {
    if c.split then c.bytes
    else if c.i == 1 then c.bytes[2 := Byte(range[0])]
    else if c.i == 2 then c.bytes[2 := Byte(range[0])][3 := Byte(range[1])]
    else c.bytes
  }

  lemma {:induction false} CopiedWithin(range: string, c: Cells)
    requires |c.bytes| == 8 && c.p <= c.i + 2 && c.i <= 5 && c.i <= |range|
    ensures Copied(range, c).i <= |range|
    decreases 5 - c.i
  {
    if c.i < |range| && range[c.i] != '\0' && c.i < 5 {
      CopiedWithin(range, if range[c.i] == '~' then Cells(c.bytes, 2, true, c.i + 1)
                          else Cells(c.bytes[c.p := Byte(range[c.i])], c.p + 1, c.split, c.i + 1));
    }
  }

  /** The interval of a range text. */
  function Interval(range: string): (lr: (nat, nat))
    ensures lr.0 < 0x1_0000 && lr.1 < 0x1_0000
  {
    CopiedWithin(range, Cells(BLANK, 0, false, 0));
    var b := Finished(range, Copied(range, Cells(BLANK, 0, false, 0)));
    (Index(b[0], b[1]), Index(b[2], b[3]))
  }

  lemma BlankIs(bytes: seq<nat>)
    requires |bytes| == 8 && bytes[0] == bytes[1] == '-' as int && bytes[2] == bytes[3] == 'z' as int
    requires forall i :: 4 <= i < 8 ==> bytes[i] == 0
    ensures bytes == BLANK
  {
  }

  lemma IntervalIs(range: string, c: Cells, bytes: seq<nat>)
    requires c == Copied(range, Cells(BLANK, 0, false, 0)) && c.i <= |range| && bytes == Finished(range, c)
    ensures Interval(range) == (Index(bytes[0], bytes[1]), Index(bytes[2], bytes[3]))
  {
    hide Index, Copied, Finished;
  }

  lemma CopiedStep(range: string, c: Cells)
    requires |c.bytes| == 8 && c.p <= c.i + 2 && c.i <= 5
    ensures Copied(range, c)
         == if !(c.i < |range| && range[c.i] != '\0' && c.i < 5) then c
            else if range[c.i] == '~' then Copied(range, Cells(c.bytes, 2, true, c.i + 1))
            else Copied(range, Cells(c.bytes[c.p := Byte(range[c.i])], c.p + 1, c.split, c.i + 1))
  {
  }

  method RangeToIndex(range: Option<string>) returns (ok: bool, l: nat, r: nat)
    ensures ok == range.Some?
    ensures ok ==> (l, r) == Interval(range.value)
  {
    hide Byte, Index, Copied, Interval, BLANK;
    ok, l, r := range.Some?, 0, 0;
    if range.None? {
      return;
    }
    var text := range.value;
    var cells := new nat[8];
    cells[0], cells[1], cells[2], cells[3] := '-' as int, '-' as int, 'z' as int, 'z' as int;
    cells[4], cells[5], cells[6], cells[7] := 0, 0, 0, 0;
    ghost var bytes: seq<nat> := cells[..];
    BlankIs(bytes);
    var p, i, isSplit := 0, 0, false;
    while i < |text| && text[i] != '\0' && i < 5
      invariant i <= |text| && i <= 5 && p <= i + 2
      invariant cells[..] == bytes && |bytes| == 8
      invariant Copied(text, Cells(bytes, p, isSplit, i)) == Copied(text, Cells(BLANK, 0, false, 0))
    {
      CopiedStep(text, Cells(bytes, p, isSplit, i));
      if text[i] == '~' {
        p, isSplit := 2, true;
      } else {
        cells[p] := Byte(text[i]);
        bytes := bytes[p := Byte(text[i])];
        p := p + 1;
      }
      i := i + 1;
    }
    CopiedStep(text, Cells(bytes, p, isSplit, i));
    if !isSplit {
      if i == 1 {
        cells[2] := Byte(text[0]);
      } else if i == 2 {
        cells[2] := Byte(text[0]);
        cells[3] := Byte(text[1]);
      }
    }
    assert cells[..] == Finished(text, Cells(bytes, p, isSplit, i));
    IntervalIs(text, Cells(bytes, p, isSplit, i), cells[..]);
    l := Index(cells[0], cells[1]);
    r := Index(cells[2], cells[3]);
  }

  // ---------------------------------------------------------------- what range texts mean

  /** Range texts as users write them: "a~b", or a name without a tilde; at most five characters are looked at. */
  datatype RangeText = Between(left: string, right: string) | Only(name: string)

  predicate IsRange(t: RangeText) {
    match t
    case Between(a, b) => |a| + 1 + |b| <= 5 && AllAscii(a) && AllAscii(b) && '~' !in a && '~' !in b
    case Only(n) => |n| <= 5 && AllAscii(n) && '~' !in n
  }

  function TextOf(t: RangeText): string {
    match t
    case Between(a, b) => a + "~" + b
    case Only(n) => n
  }

  /** The character at `i`, or else `pad`. */
  function CharAt(s: string, i: nat, pad: char): char {
    if i < |s| then s[i] else pad
  }

  function LeftEnd(t: RangeText): (char, char) {
    var a := if t.Between? then t.left else t.name;
    (CharAt(a, 0, '-'), CharAt(a, 1, '-'))
  }

  /** A name of one or two characters is its own right end. What stands beyond the second character of the left side
      takes part in the right end where the right side is too short. */
  function RightEnd(t: RangeText): (char, char) {
    match t
    case Between(a, b) => (CharAt(b, 0, CharAt(a, 2, 'z')), CharAt(b, 1, CharAt(a, 3, 'z')))
    case Only(n) =>
      if |n| == 1 then (n[0], 'z') else if |n| == 2 then (n[0], n[1]) else (CharAt(n, 2, 'z'), CharAt(n, 3, 'z'))
  }

  function Code(name: (char, char)): nat {
    Index(Byte(name.0), Byte(name.1))
  }

  function Bytes(w: string): (b: seq<nat>)
    ensures |b| == |w| && forall i :: 0 <= i < |w| ==> b[i] == Byte(w[i])
  {
    seq(|w|, i requires 0 <= i < |w| => Byte(w[i]))
  }

  /** The cells with the characters of `w` written from cell `p` on. */
  function Written(cells: seq<nat>, p: nat, w: string): (r: seq<nat>)
    requires p + |w| <= |cells|
    ensures |r| == |cells| && forall i :: 0 <= i < |r| ==> r[i] == if p <= i < p + |w| then Byte(w[i - p]) else cells[i]
  {
    cells[..p] + Bytes(w) + cells[p + |w|..]
  }

  /** Characters other than a tilde are written one after the other. */
  lemma {:induction false} CopiedRun(text: string, cells: seq<nat>, p: nat, split: bool, i: nat, w: string)
    requires |cells| == 8 && p <= i + 2 && i + |w| <= 5 && p + |w| <= 8 && i + |w| <= |text| && text[i..i + |w|] == w
    requires AllAscii(w) && '~' !in w
    ensures Copied(text, Cells(cells, p, split, i))
         == Copied(text, Cells(Written(cells, p, w), p + |w|, split, i + |w|))
    decreases |w|
  {
    hide Copied, Written, Byte;
    if w == "" {
      assert Written(cells, p, w) == cells;
    } else {
      assert text[i] == w[0] && w[0] in w && IsAscii(w[0]);
      assert text[i + 1..i + |w|] == w[1..];
      CopiedStep(text, Cells(cells, p, split, i));
      var next := cells[p := Byte(w[0])];
      CopiedRun(text, next, p + 1, split, i + 1, w[1..]);
      assert Written(next, p + 1, w[1..]) == Written(cells, p, w);
    }
  }

  lemma CopiedEnd(text: string, c: Cells)
    requires |c.bytes| == 8 && c.p <= c.i + 2 && c.i <= 5 && c.i == |text|
    ensures Copied(text, c) == c
  {
  }

  /** The interval of a range text runs from its left end to its right end. */
  lemma IntervalEnds(t: RangeText)
    requires IsRange(t)
    ensures Interval(TextOf(t)) == (Code(LeftEnd(t)), Code(RightEnd(t)))
  {
    match t
    case Only(n) => OnlyEnds(n);
    case Between(a, b) => BetweenEnds(a, b);
  }

  lemma OnlyEnds(n: string)
    requires IsRange(Only(n))
    ensures Interval(n) == (Code(LeftEnd(Only(n))), Code(RightEnd(Only(n))))
  {
    hide Index, Copied, Byte;
    ByteOf('-');
    ByteOf('z');
    assert n[0..0 + |n|] == n;
    CopiedRun(n, BLANK, 0, false, 0, n);
    CopiedEnd(n, Cells(Written(BLANK, 0, n), |n|, false, |n|));
  }

  lemma BetweenEnds(a: string, b: string)
    requires IsRange(Between(a, b))
    ensures Interval(a + "~" + b) == (Code(LeftEnd(Between(a, b))), Code(RightEnd(Between(a, b))))
  {
    hide Index, Copied, Byte, Written;
    var text, k := a + "~" + b, |a|;
    ByteOf('-');
    ByteOf('z');
    assert text[0..0 + k] == a && text[k] == '~' && text[k + 1..k + 1 + |b|] == b;
    var cells := Written(BLANK, 0, a);
    CopiedRun(text, BLANK, 0, false, 0, a);
    CopiedStep(text, Cells(cells, k, false, k));
    CopiedRun(text, cells, 2, true, k + 1, b);
    CopiedEnd(text, Cells(Written(cells, 2, b), 2 + |b|, true, k + 1 + |b|));
  }

  /** Only the first five characters of a range text matter. */
  lemma FirstFive(text: string)
    requires |text| > 5
    ensures Interval(text) == Interval(text[..5])
  {
    hide Index, Copied;
    CopiedFive(text, Cells(BLANK, 0, false, 0));
    CopiedWithin(text[..5], Cells(BLANK, 0, false, 0));
  }

  lemma {:induction false} CopiedFive(text: string, c: Cells)
    requires |text| > 5 && |c.bytes| == 8 && c.p <= c.i + 2 && c.i <= 5
    ensures Copied(text, c) == Copied(text[..5], c)
    decreases 5 - c.i
  {
    if c.i < 5 && text[c.i] != '\0' {
      CopiedFive(text, if text[c.i] == '~' then Cells(c.bytes, 2, true, c.i + 1)
                       else Cells(c.bytes[c.p := Byte(text[c.i])], c.p + 1, c.split, c.i + 1));
    }
  }

  // ---------------------------------------------------------------- the selector

  datatype HostElement = HostElement(begin: nat, end: nat, port: nat, enabled: bool, address: string)

  datatype StorageElement = StorageElement(address: string, port: nat)

  /** The keys of one Host.Content table, where they are present. */
  datatype Row = Row(range: Option<string>, address: Option<string>, port: Option<int>, enable: Option<bool>)

  /** The keys of the router file: Host.address, Host.port and the Host.Content tables. */
  datatype RouterFile = RouterFile(address: Option<string>, port: Option<int>, content: Option<seq<Row>>)

  function GetOr<T>(o: Option<T>, default: T): T {
    if o.Some? then o.value else default
  }

  function Port(p: int): nat {
    p % 0x1_0000
  }

  /** Rows without a range or an address are passed over. */
  function Elements(rows: seq<Row>): seq<HostElement> {
    if rows == [] then []
    else
      var front, row := Elements(rows[..|rows| - 1]), rows[|rows| - 1];
      if row.range.None? || row.address.None? then front
      else front + [ElementOf(row)]
  }

  function ElementOf(row: Row): HostElement
    requires row.range.Some? && row.address.Some?
  {
    var (l, r) := Interval(row.range.value);
    HostElement(l, r, Port(GetOr(row.port, 3690)), GetOr(row.enable, true), row.address.value)
  }

  predicate Hits(e: HostElement, index: nat) {
    e.begin <= index <= e.end && e.enabled
  }

  /** First match, or else the default. */
  function Chosen(es: seq<HostElement>, index: nat, default: StorageElement): StorageElement {
    if es == [] then default
    else if Hits(es[0], index) then StorageElement(es[0].address, es[0].port)
    else Chosen(es[1..], index, default)
  }

  lemma {:induction false} ChosenSkips(es: seq<HostElement>, index: nat, default: StorageElement, k: nat)
    requires k <= |es| && forall j :: 0 <= j < k ==> !Hits(es[j], index)
    ensures Chosen(es, index, default) == Chosen(es[k..], index, default)
  {
    if k > 0 {
      ChosenSkips(es[1..], index, default, k - 1);
      assert es[1..][k - 1..] == es[k..];
    }
  }

  class RouterSeletor {
    var hostElement: seq<HostElement>
    var defaultElement: string
    var defaultPort: nat

    constructor ()
      ensures hostElement == [] && defaultElement == "" && defaultPort == 0
    {
      hostElement, defaultElement, defaultPort := [], "", 0;
    }

    method InitializeManager(g: RouterFile) returns (ok: bool)
      modifies this
      ensures ok <==> g.content.Some? && !(defaultElement == "" && hostElement == [])
      ensures defaultElement == GetOr(g.address, "192.168.1.12") && defaultPort == Port(GetOr(g.port, 3690))
      ensures hostElement == old(hostElement) + (if g.content.Some? then Elements(g.content.value) else [])
    {
      defaultElement := GetOr(g.address, "192.168.1.12");
      defaultPort := Port(GetOr(g.port, 3690));
      if g.content.None? {
        return false;
      }
      var rows := g.content.value;
      for i := 0 to |rows|
        invariant defaultElement == GetOr(g.address, "192.168.1.12") && defaultPort == Port(GetOr(g.port, 3690))
        invariant hostElement == old(hostElement) + Elements(rows[..i])
      {
        assert rows[..i + 1][..i] == rows[..i];
        var row := rows[i];
        if row.range.None? {
          continue;
        }
        if row.address.None? {
          continue;
        }
        var _, l, r := RangeToIndex(row.range);
        var port := if row.port.Some? then Port(row.port.value) else 3690;
        var enabled := if row.enable.Some? then row.enable.value else true;
        hostElement := hostElement + [HostElement(l, r, port, enabled, row.address.value)];
      }
      assert rows[..|rows|] == rows;
      return !(defaultElement == "" && hostElement == []);
    }

    /** The first enabled element whose interval holds the owner's first two characters, or else the default; no
        answer for a shorter owner. */
    method GetAddress(owner: string) returns (elem: Option<StorageElement>)
      ensures elem == ChosenFor(owner, hostElement, StorageElement(defaultElement, defaultPort))
      ensures elem.None? <==> |owner| < 2
    {
      if |owner| < 2 {
        return None;
      }
      var index := Index(Byte(owner[0]), Byte(owner[1]));
      for k := 0 to |hostElement|
        invariant forall j :: 0 <= j < k ==> !Hits(hostElement[j], index)
      {
        var e := hostElement[k];
        if index >= e.begin && index <= e.end {
          if e.enabled {
            ChosenSkips(hostElement, index, StorageElement(defaultElement, defaultPort), k);
            return Some(StorageElement(e.address, e.port));
          }
        }
      }
      ChosenSkips(hostElement, index, StorageElement(defaultElement, defaultPort), |hostElement|);
      return Some(StorageElement(defaultElement, defaultPort));
    }
  }

  /** GetAddress on values: no answer for an owner of fewer than two characters. */
  function ChosenFor(owner: string, es: seq<HostElement>, default: StorageElement): Option<StorageElement> {
    if |owner| < 2 then None else Some(Chosen(es, Code((owner[0], owner[1])), default))
  }

  // ---------------------------------------------------------------- intervals refine lexicographic ranges

  /** A row with a range text and an address; port and enable may be absent. */
  datatype Entry = Entry(range: RangeText, address: string, port: Option<int>, enable: Option<bool>)

  /** A row of the router file; one without a range or an address says nothing. */
  datatype Line = Full(entry: Entry) | Partial(row: Row)

  predicate IsLine(line: Line) {
    match line
    case Full(e) => IsRange(e.range)
    case Partial(row) => row.range.None? || row.address.None?
  }

  function RowOf(e: Entry): Row {
    Row(Some(TextOf(e.range)), Some(e.address), e.port, e.enable)
  }

  predicate Covers(t: RangeText, name: (char, char)) {
    LexLeq(LeftEnd(t), name) && LexLeq(name, RightEnd(t))
  }

  /** An entry serves the names between its ends unless it has been switched off. */
  predicate Admits(e: Entry, name: (char, char)) {
    Covers(e.range, name) && e.enable != Some(false)
  }

  /** Where an entry leads: Subversion's own port if it names none, and the low sixteen bits of the one it names. */
  function Target(e: Entry): StorageElement {
    StorageElement(e.address, match e.port case None => 3690 case Some(p) => p % 65536)
  }

  /** The selection as users mean it. */
  function ChosenByName(lines: seq<Line>, name: (char, char), default: StorageElement): StorageElement {
    if lines == [] then default
    else if lines[0].Full? && Admits(lines[0].entry, name) then Target(lines[0].entry)
    else ChosenByName(lines[1..], name, default)
  }

  lemma EndsAreAscii(t: RangeText)
    requires IsRange(t)
    ensures IsAscii(LeftEnd(t).0) && IsAscii(LeftEnd(t).1) && IsAscii(RightEnd(t).0) && IsAscii(RightEnd(t).1)
  {
  }

  /** An entry matches exactly the names that it serves, and leads to its target. */
  lemma HitIsCover(e: Entry, name: (char, char))
    requires IsRange(e.range) && IsAscii(name.0) && IsAscii(name.1)
    ensures var element := ElementOf(RowOf(e));
            && (Hits(element, Code(name)) <==> Admits(e, name))
            && StorageElement(element.address, element.port) == Target(e)
  {
    hide Interval, TextOf, LeftEnd, RightEnd, Byte, Index;
    IntervalEnds(e.range);
    EndsAreAscii(e.range);
    EncodingKeepsOrder(LeftEnd(e.range), name);
    EncodingKeepsOrder(name, RightEnd(e.range));
    EncodingKeepsOrder(name, LeftEnd(e.range));
    EncodingKeepsOrder(RightEnd(e.range), name);
    LexTotal(LeftEnd(e.range), name);
    LexTotal(name, RightEnd(e.range));
  }

  lemma LexTotal(a: (char, char), b: (char, char))
    ensures a == b || LexLess(a, b) || LexLess(b, a)
    ensures !(LexLess(a, b) && LexLess(b, a))
  {
  }

  function RowsOf(lines: seq<Line>): (rows: seq<Row>)
    ensures |rows| == |lines|
  {
    if lines == [] then []
    else [match lines[0] case Full(e) => RowOf(e) case Partial(row) => row] + RowsOf(lines[1..])
  }

  lemma {:induction false} ElementsFirst(row: Row, rows: seq<Row>)
    ensures Elements([row] + rows)
         == (if row.range.None? || row.address.None? then [] else [ElementOf(row)]) + Elements(rows)
  {
    hide ElementOf;
    var all := [row] + rows;
    if rows == [] {
      assert all[..0] == [] && all[0] == row;
    } else {
      var n := |rows| - 1;
      ElementsFirst(row, rows[..n]);
      assert all[..|all| - 1] == [row] + rows[..n];
    }
  }

  /** The selector built from the rows of a file picks what the names say. */
  lemma {:induction false} ChoiceByName(lines: seq<Line>, name: (char, char), default: StorageElement)
    requires forall line <- lines :: IsLine(line)
    requires IsAscii(name.0) && IsAscii(name.1)
    ensures Chosen(Elements(RowsOf(lines)), Code(name), default) == ChosenByName(lines, name, default)
  {
    hide IsRange, Admits, Target, Hits, Code, ElementOf;
    if lines != [] {
      var rows := RowsOf(lines[1..]);
      ElementsFirst(RowsOf(lines)[0], rows);
      assert IsLine(lines[0]);
      ChoiceByName(lines[1..], name, default);
      match lines[0]
      case Full(e) =>
        HitIsCover(e, name);
        assert Elements(RowsOf(lines))[1..] == Elements(rows);
      case Partial(_) =>
        assert Elements(RowsOf(lines)) == Elements(rows);
    }
  }

  /** The choice is the first entry that serves the name. */
  lemma {:induction false} FirstCoveringEntry(lines: seq<Line>, name: (char, char), default: StorageElement, k: nat)
    requires k <= |lines|
    requires forall j :: 0 <= j < k ==> lines[j].Partial? || !Admits(lines[j].entry, name)
    ensures k < |lines| && lines[k].Full? && Admits(lines[k].entry, name) ==>
              ChosenByName(lines, name, default) == Target(lines[k].entry)
    ensures k == |lines| ==> ChosenByName(lines, name, default) == default
  {
    hide Admits, Target;
    if k > 0 {
      FirstCoveringEntry(lines[1..], name, default, k - 1);
    }
  }
}
