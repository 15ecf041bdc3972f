/** The error frame that the session sends to a client, and the ra_svn items it is made of. */
module ErrorFrame {
  import opened Wrappers
  import opened Decimal
  import Handshake

  /** `%s`: the characters before the first NUL. */
  function CText(s: string): (t: string)
    ensures |t| <= |s|
  {
    if s == "" || s[0] == '\0' then "" else [s[0]] + CText(s[1..])
  }

  lemma {:induction false} CTextWhole(s: string)
    requires '\0' !in s
    ensures CText(s) == s
  {
    if s != "" {
      CTextWhole(s[1..]);
    }
  }

  /** What sendError formats when the announced length is that of the message. */
  function Frame(eid: int, msg: string): string {
    "( failure ( ( " + IntText(eid) + " " + Dec(|msg|) + ":" + CText(msg) + " 0: 0 ) ) ) "
  }

  predicate IsInt32(n: int) {
    -0x8000_0000 <= n < 0x8000_0000
  }

  predicate IsUint32(n: int) {
    0 <= n < 0x1_0000_0000
  }

  lemma TenDigits(n: nat)
    requires n < 0x1_0000_0000
    ensures |Dec(n)| <= 10
  {
    PowerTen();
    DecLength(n, 10);
  }

  lemma PowerTen()
    ensures Power10(10) == 10_000_000_000
  {
    assert Power10(2) == 100;
    assert Power10(4) == 10_000;
    assert Power10(6) == 1_000_000;
    assert Power10(8) == 100_000_000;
  }

  /** The limit `length + 64` leaves room for the whole frame and its closing NUL. */
  lemma FrameFits(eid: int, msg: string)
    requires IsInt32(eid) && IsUint32(|msg|)
    ensures |Frame(eid, msg)| + 1 <= |msg| + 64
  {
    TenDigits(if eid < 0 then -eid else eid);
    TenDigits(|msg|);
  }

  // ---------------------------------------------------------------- ra_svn items

  datatype Item = Number(n: nat) | Str(bytes: string) | Word(letters: string) | List(items: seq<Item>)

  predicate IsLetter(c: char) {
    'a' <= c <= 'z' || 'A' <= c <= 'Z'
  }

  predicate IsWordChar(c: char) {
    IsLetter(c) || IsDigit(c) || c == '-'
  }

  function WordLength(s: string): (k: nat)
    ensures k <= |s|
  {
    if s != "" && IsWordChar(s[0]) then 1 + WordLength(s[1..]) else 0
  }

  /** White space must follow an item; all of it is passed over. */
  function SkipWhite(s: string): (t: string)
    ensures |t| <= |s|
  {
    if s != "" && Handshake.IsBlank(s[0]) then SkipWhite(s[1..]) else s
  }

  function Closed<T>(x: T, rest: string): (r: Option<(T, string)>)
    ensures r.Some? ==> |r.value.1| < |rest|
  {
    if rest != "" && Handshake.IsBlank(rest[0]) then Some((x, SkipWhite(rest))) else None
  }

  /** One item, by section 1 of the ra_svn protocol. */
  function ReadItem(s: string): (r: Option<(Item, string)>)
    ensures r.Some? ==> |r.value.1| < |s|
    decreases |s|, 0
  {
    if s == "" then None
    else if IsDigit(s[0]) then
      var k := DigitCount(s);
      var n := Accumulate(s[..k], 0);
      if k < |s| && s[k] == ':' then
        if k + 1 + n <= |s| then Closed(Str(s[k + 1..k + 1 + n]), s[k + 1 + n..]) else None
      else Closed(Number(n), s[k..])
    else if IsLetter(s[0]) then
      var k := WordLength(s);
      Closed(Word(s[..k]), s[k..])
    else if s[0] == '(' && |s| > 1 && Handshake.IsBlank(s[1]) then
      match ReadItems(SkipWhite(s[1..]))
      case None => None
      case Some(p) => Closed(List(p.0), p.1)
    else None
  }

  /** The items of a list up to its closing parenthesis, and what follows it. */
  function ReadItems(s: string): (r: Option<(seq<Item>, string)>)
    ensures r.Some? ==> |r.value.1| < |s|
    decreases |s|, 1
  {
    if s == "" then None
    else if s[0] == ')' then Some(([], s[1..]))
    else
      match ReadItem(s)
      case None => None
      case Some(p) =>
        match ReadItems(p.1)
        case None => None
        case Some(q) => Some(([p.0] + q.0, q.1))
  }

  /** The item a failure response stands for. */
  function Failure(eid: nat, msg: string): Item {
    List([Word("failure"), List([List([Number(eid), Str(msg), Str(""), Number(0)])])])
  }

  lemma ReadNumber(n: nat, rest: string)
    requires rest == "" || !Handshake.IsBlank(rest[0])
    ensures ReadItem(Dec(n) + " " + rest) == Some((Number(n), rest))
  {
    var s := Dec(n) + " " + rest;
    assert s == Dec(n) + (" " + rest) && s[0] == Dec(n)[0] && IsDigit(s[0]);
    DigitCountIs(Dec(n), " " + rest);
    assert s[..|Dec(n)|] == Dec(n) && s[|Dec(n)|..] == " " + rest;
    AccumulateDec(n);
    WhiteOnce(rest);
  }

  lemma WhiteOnce(rest: string)
    requires rest == "" || !Handshake.IsBlank(rest[0])
    ensures SkipWhite(" " + rest) == rest
  {
    assert (" " + rest)[1..] == rest;
  }

  lemma ReadItemString(s: string, k: nat, n: nat)
    requires s != "" && IsDigit(s[0]) && DigitCount(s) == k < |s| && s[k] == ':'
    requires Accumulate(s[..k], 0) == n && k + 1 + n <= |s|
    ensures ReadItem(s) == Closed(Str(s[k + 1..k + 1 + n]), s[k + 1 + n..])
  {
    hide Closed;
  }

  lemma ReadCounted(bytes: string, rest: string)
    requires rest == "" || !Handshake.IsBlank(rest[0])
    ensures ReadItem(Dec(|bytes|) + ":" + bytes + " " + rest) == Some((Str(bytes), rest))
  {
    hide Closed, Dec, ReadItem;
    var d := Dec(|bytes|);
    var s, tail := d + ":" + bytes + " " + rest, ":" + bytes + " " + rest;
    CountedSlices(d, bytes, rest);
    StartsWith(d, tail);
    assert tail[0] == ':';
    DigitCountIs(d, tail);
    AccumulateDec(|bytes|);
    ReadItemString(s, |d|, |bytes|);
    ClosedByBlank(Str(bytes), rest);
  }

  lemma StartsWith(d: string, tail: string)
    requires d != "" && AllDigits(d)
    ensures IsDigit((d + tail)[0])
  {
    assert (d + tail)[0] == d[0];
  }

  lemma CountedSlices(d: string, bytes: string, rest: string)
    ensures var s, k := d + ":" + bytes + " " + rest, |d|;
            && s == d + (":" + bytes + " " + rest)
            && s[..k] == d && s[k] == ':'
            && s[k + 1..k + 1 + |bytes|] == bytes && s[k + 1 + |bytes|..] == " " + rest
  {
  }

  lemma ClosedByBlank<T>(x: T, rest: string)
    requires rest == "" || !Handshake.IsBlank(rest[0])
    ensures Closed(x, " " + rest) == Some((x, rest))
  {
    WhiteOnce(rest);
  }

  lemma {:induction false} WordLengthIs(w: string, rest: string)
    requires (forall i :: 0 <= i < |w| ==> IsWordChar(w[i])) && (rest == "" || !IsWordChar(rest[0]))
    ensures WordLength(w + rest) == |w|
  {
    if w == "" {
      assert w + rest == rest;
    } else {
      assert (w + rest)[1..] == w[1..] + rest;
      WordLengthIs(w[1..], rest);
    }
  }

  lemma ReadWord(w: string, rest: string)
    requires w != "" && IsLetter(w[0]) && forall i :: 0 <= i < |w| ==> IsWordChar(w[i])
    requires rest == "" || !Handshake.IsBlank(rest[0])
    ensures ReadItem(w + " " + rest) == Some((Word(w), rest))
  {
    var s := w + " " + rest;
    assert s == w + (" " + rest) && s[0] == w[0];
    WordLengthIs(w, " " + rest);
    assert s[..|w|] == w && s[|w|..] == " " + rest;
    WhiteOnce(rest);
  }

  lemma ReadList(items: seq<Item>, body: string, rest: string)
    requires body == "" || !Handshake.IsBlank(body[0])
    requires rest == "" || !Handshake.IsBlank(rest[0])
    requires ReadItems(body) == Some((items, " " + rest))
    ensures ReadItem("( " + body) == Some((List(items), rest))
  {
    assert ("( " + body)[1..] == " " + body;
    WhiteOnce(body);
    WhiteOnce(rest);
  }

  lemma ItemsStep(item: Item, items: seq<Item>, s: string, after: string, rest: string)
    requires ReadItem(s) == Some((item, after)) && s[0] != ')'
    requires ReadItems(after) == Some((items, rest))
    ensures ReadItems(s) == Some(([item] + items, rest))
  {
  }

  lemma ItemsEnd(rest: string)
    ensures ReadItems(")" + rest) == Some(([], rest))
  {
    assert (")" + rest)[1..] == rest;
  }

  lemma ZeroNumeral()
    ensures Dec(0) == "0"
  {
  }

  /** `0: 0 )`, the empty file name and the line. */
  lemma ReadPlace(rest: string)
    requires rest == "" || !Handshake.IsBlank(rest[0])
    ensures ReadItems("0: 0 ) " + rest) == Some(([Str(""), Number(0)], " " + rest))
  {
    hide ReadItem, ReadItems, Dec;
    ZeroNumeral();
    var t3 := "0 " + (") " + rest);
    var t2 := "0: 0 ) " + rest;
    assert t2 == Dec(0) + ":" + "" + " " + t3;
    ReadCounted("", t3);
    assert t3 == Dec(0) + " " + (") " + rest);
    ReadNumber(0, ") " + rest);
    assert ") " + rest == ")" + (" " + rest);
    ItemsEnd(" " + rest);
    ItemsStep(Number(0), [], t3, ") " + rest, " " + rest);
    assert [Number(0)] + [] == [Number(0)];
    ItemsStep(Str(""), [Number(0)], t2, t3, " " + rest);
    assert [Str("")] + [Number(0)] == [Str(""), Number(0)];
  }

  function ErrorText(eid: nat, msg: string, rest: string): string {
    Dec(eid) + " " + CountedText(msg, "0: 0 ) " + rest)
  }

  function CountedText(bytes: string, rest: string): string {
    Dec(|bytes|) + ":" + bytes + " " + rest
  }

  lemma DigitFirst(n: nat, t: string)
    ensures var s := Dec(n) + t; s != "" && IsDigit(s[0]) && s[0] != ')' && !Handshake.IsBlank(s[0])
  {
    assert (Dec(n) + t)[0] == Dec(n)[0];
    assert IsDigit(Dec(n)[0]);
  }

  /** The four fields of one error. */
  lemma ReadError(eid: nat, msg: string, rest: string)
    requires rest == "" || !Handshake.IsBlank(rest[0])
    ensures ReadItem("( " + ErrorText(eid, msg, rest))
         == Some((List([Number(eid), Str(msg), Str(""), Number(0)]), rest))
  {
    hide ReadItem, ReadItems, Dec;
    var t2 := "0: 0 ) " + rest;
    var t1 := CountedText(msg, t2);
    var t0 := Dec(eid) + " " + t1;
    ReadPlace(rest);
    ReadCounted(msg, t2);
    assert t1 == Dec(|msg|) + (":" + msg + " " + t2);
    DigitFirst(|msg|, ":" + msg + " " + t2);
    ReadNumber(eid, t1);
    assert t0 == Dec(eid) + (" " + t1);
    DigitFirst(eid, " " + t1);
    ItemsStep(Str(msg), [Str(""), Number(0)], t1, t2, " " + rest);
    assert [Str(msg)] + [Str(""), Number(0)] == [Str(msg), Str(""), Number(0)];
    ItemsStep(Number(eid), [Str(msg), Str(""), Number(0)], t0, t1, " " + rest);
    assert [Number(eid)] + [Str(msg), Str(""), Number(0)] == [Number(eid), Str(msg), Str(""), Number(0)];
    ReadList([Number(eid), Str(msg), Str(""), Number(0)], t0, rest);
  }

  /** `( failure ( ... ) ) ` around one error. */
  lemma ReadFailure(eid: nat, msg: string)
    ensures ReadItem("( " + ("failure " + ("( " + (("( " + ErrorText(eid, msg, ") ) "))))))
         == Some((Failure(eid, msg), ""))
  {
    hide ReadItem, ReadItems, ErrorText;
    var error := List([Number(eid), Str(msg), Str(""), Number(0)]);
    var t2 := "( " + ErrorText(eid, msg, ") ) ");
    var t1 := "( " + t2;
    var t0 := "failure " + t1;
    ReadError(eid, msg, ") ) ");
    assert ") ) " == ")" + " ) ";
    ItemsEnd(" ) ");
    ItemsStep(error, [], t2, ") ) ", " ) ");
    assert [error] + [] == [error];
    assert " ) " == " " + ") ";
    ReadList([error], t2, ") ");
    assert ") " == ")" + " ";
    ItemsEnd(" ");
    ItemsStep(List([error]), [], t1, ") ", " ");
    assert [List([error])] + [] == [List([error])];
    assert t0 == "failure" + " " + t1;
    ReadWord("failure", t1);
    ItemsStep(Word("failure"), [List([error])], t0, t1, " ");
    assert [Word("failure")] + [List([error])] == [Word("failure"), List([error])];
    assert " " == " " + "";
    ReadList([Word("failure"), List([error])], t0, "");
  }

  /** Reading the frame back gives the identifier and the message, and nothing is left over; a negative
      identifier is no ra_svn number, so such a frame is no item at all. */
  lemma FrameReadsBack(eid: int, msg: string)
    requires '\0' !in msg
    ensures eid >= 0 ==> ReadItem(Frame(eid, msg)) == Some((Failure(eid, msg), ""))
    ensures eid < 0 ==> ReadItem(Frame(eid, msg)) == None
  {
    CTextWhole(msg);
    if eid >= 0 {
      FrameRegrouped(eid, msg);
      ReadFailure(eid, msg);
    } else {
      NegativeFrame(eid, msg);
    }
  }

  lemma FrameRegrouped(eid: nat, msg: string)
    requires CText(msg) == msg
    ensures Frame(eid, msg) == "( " + ("failure " + ("( " + (("( " + ErrorText(eid, msg, ") ) ")))))
  {
    hide Dec;
    var x := FrameBody(eid, msg);
    Opening(x);
    FrameOpens(eid, msg);
    BodyRegrouped(Dec(eid), Dec(|msg|), msg);
  }

  function FrameBody(eid: int, msg: string): string {
    IntText(eid) + " " + Dec(|msg|) + ":" + CText(msg) + " 0: 0 ) ) ) "
  }

  lemma FrameOpens(eid: int, msg: string)
    ensures Frame(eid, msg) == "( failure ( ( " + FrameBody(eid, msg)
  {
    hide Dec, IntText, CText;
    var a, b, c := IntText(eid), Dec(|msg|), CText(msg);
    Reassociate("( failure ( ( ", a, b, c, " 0: 0 ) ) ) ");
  }

  lemma Reassociate(o: string, a: string, b: string, c: string, e: string)
    ensures o + a + " " + b + ":" + c + e == o + (a + " " + b + ":" + c + e)
  {
  }

  lemma Opening(x: string)
    ensures "( failure ( ( " + x == "( " + ("failure " + ("( " + ("( " + x)))
  {
  }

  lemma BodyRegrouped(a: string, b: string, c: string)
    ensures a + " " + b + ":" + c + " 0: 0 ) ) ) " == a + " " + (b + ":" + c + " " + ("0: 0 ) " + ") ) "))
  {
  }

  lemma NegativeFrame(eid: int, msg: string)
    requires eid < 0 && CText(msg) == msg
    ensures ReadItem(Frame(eid, msg)) == None
  {
    hide ReadItem, ReadItems, Dec;
    var tail := FrameBody(eid, msg);
    assert tail[0] == '-';
    var t3 := "( " + tail;
    var t2 := "( " + t3;
    var t1 := "failure " + t2;
    FrameOpens(eid, msg);
    Opening(tail);
    NoItem(tail);
    NoList(tail);
    NoItems(t3);
    NoList(t3);
    ReadWord("failure", t2);
    assert t1 == "failure" + " " + t2;
    NoItems(t2);
    NoMore(t1, Word("failure"), t2);
    NoList(t1);
  }

  lemma NoItem(s: string)
    requires s != "" && s[0] == '-'
    ensures ReadItem(s) == None && ReadItems(s) == None
  {
  }

  lemma NoList(body: string)
    requires ReadItems(body) == None && (body == "" || !Handshake.IsBlank(body[0]))
    ensures ReadItem("( " + body) == None
  {
    hide ReadItems, SkipWhite, DigitCount, WordLength, Accumulate;
    assert ("( " + body)[1..] == " " + body;
    WhiteOnce(body);
  }

  lemma NoItems(s: string)
    requires s != "" && s[0] != ')' && ReadItem(s) == None
    ensures ReadItems(s) == None
  {
  }

  lemma NoMore(s: string, item: Item, after: string)
    requires s != "" && s[0] != ')' && ReadItem(s) == Some((item, after)) && ReadItems(after) == None
    ensures ReadItems(s) == None
  {
  }
}
