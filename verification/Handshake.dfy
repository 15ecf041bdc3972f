/** The handshake reader of src/SubversionHds.cc: a five-state machine over the client's response. */
module Handshake {
  import opened Decimal

  const LONG_MAX: int := 0x7fff_ffff_ffff_ffff
  const UINT_SIZE: int := 0x1_0000_0000

  type uint32 = x: int | 0 <= x < UINT_SIZE

  /** Unsigned arithmetic wraps around. */
  function Up(x: uint32): uint32 {
    if x + 1 == UINT_SIZE then 0 else x + 1
  }

  function Down(x: uint32): uint32 {
    if x == 0 then UINT_SIZE - 1 else x - 1
  }

  function Minus(c: char, d: char): uint32 {
    if c >= d then c as int - d as int else UINT_SIZE + c as int - d as int
  }

  const MALFORMED := "Malformed Network data"
  const PARSE_FAILED := "Parse Subversion Handsake failed"
  const NO_URL_FOUND := ", cannot resolve url !"
  const MARK_TOO_LONG := " string length mark too long !"

  /** The texts that the reader leaves in `lastError`. */
  datatype Complaint = NoComplaint | EmptyBuffer | NulByte | UrlMarkTooLong | AgentMarkTooLong | NoUrl {
    function Message(): string {
      match this
      case NoComplaint => ""
      case EmptyBuffer => MALFORMED + ",buffer is empty !"
      case NulByte => MALFORMED + " !"
      case UrlMarkTooLong => MALFORMED + ", URL" + MARK_TOO_LONG
      case AgentMarkTooLong => MALFORMED + ", ra-client" + MARK_TOO_LONG
      case NoUrl => PARSE_FAILED + NO_URL_FOUND
    }
  }

  datatype Hds = Hds(protocol: uint32, capabilities: seq<string>, url: string, userAgent: string, lastError: Complaint)

  const NO_HDS := Hds(0, [], "", "", NoComplaint)

  datatype Phase = Start | ProtocolParsed | CapabilitiesParsed | UrlParsed | AgentParsed {
    function Rank(): nat {
      match this
      case Start => 0
      case ProtocolParsed => 1
      case CapabilitiesParsed => 2
      case UrlParsed => 3
      case AgentParsed => 4
    }
  }

  datatype State = State(phase: Phase, depth: uint32, tmp: string, hds: Hds)

  /** The answer of the reader. `Unspecified` stands for a length mark that is negative or does not fit a
      long, for which the source's pointer arithmetic and copy have no meaning. */
  datatype Answer = Answer(code: int, hds: Hds) | Unspecified

  datatype Move = Go(rest: string, state: State) | Halt(answer: Answer)

  predicate IsBlank(c: char) {
    c == ' ' || c == '\n'
  }

  /** A character that the reader handles before looking at its state. */
  predicate IsPunctuation(c: char) {
    c == '(' || c == ')' || IsBlank(c) || c == '\0'
  }

  // ---------------------------------------------------------------- strtol

  predicate IsSpace(c: char) {
    c == ' ' || '\t' <= c <= '\r'
  }

  function SkipSpace(s: string): string {
    if s != "" && IsSpace(s[0]) then SkipSpace(s[1..]) else s
  }

  /** The value of strtol in base ten, before it is clipped to the range of long. */
  function StrToL(s: string): int {
    var t := SkipSpace(s);
    var negative := t != "" && t[0] == '-';
    var digits := if t != "" && (t[0] == '-' || t[0] == '+') then t[1..] else t;
    var value: int := Accumulate(digits[..DigitCount(digits)], 0);
    if negative then -value else value
  }

  lemma StrToLDec(n: nat)
    ensures StrToL(Dec(n)) == n
  {
    var s := Dec(n);
    assert IsDigit(s[0]);
    DigitCountIs(s, "");
    assert s + "" == s && s[..|s|] == s;
    AccumulateDec(n);
  }

  // ---------------------------------------------------------------- one step

  /** The state after an announced string. */
  function Stored(s: State, body: string, isUrl: bool): State {
    s.(tmp := "",
       phase := if isUrl then UrlParsed else AgentParsed,
       hds := if isUrl then s.hds.(url := body) else s.hds.(userAgent := body))
  }

  /** Reading the string announced by `mark`, where `text` begins with the colon. */
  function Announced(text: string, mark: string, state: State, isUrl: bool): Move
    requires text != ""
  {
    var l := StrToL(mark);
    if l < 0 || l > LONG_MAX then
      Halt(Unspecified)
    else if l + 1 >= |text| then
      Halt(Answer(2, state.hds.(lastError := if isUrl then UrlMarkTooLong else AgentMarkTooLong)))
    else
      // The character behind the string is skipped unseen.
      Go(text[l + 2..], Stored(state, text[1..1 + l], isUrl))
  }

  /** One turn of the loop on the non-empty rest `text` of the buffer. */
  function Step(text: string, s: State): Move
    requires text != ""
  {
    var c, rest := text[0], text[1..];
    if c == '(' then Go(rest, s.(depth := Up(s.depth)))
    else if c == ')' then Go(rest, s.(depth := Down(s.depth)))
    else if IsBlank(c) then
      if s.phase.ProtocolParsed? && s.tmp != "" then
        Go(rest, s.(hds := s.hds.(capabilities := s.hds.capabilities + [s.tmp]), tmp := ""))
      else Go(rest, s)
    else if c == '\0' then Halt(Answer(2, s.hds.(lastError := NulByte)))
    else
      match s.phase
      case Start =>
        if s.depth == 1 then
          Go(rest, s.(phase := ProtocolParsed, hds := s.hds.(protocol := Minus(c, '0'))))
        else Go(rest, s)
      case ProtocolParsed =>
        if s.depth == 2 then Go(rest, s.(tmp := s.tmp + [c]))
        else MarkStep(text, s.(phase := CapabilitiesParsed, tmp := ""), true)
      case CapabilitiesParsed =>
        MarkStep(text, s, true)
      case UrlParsed =>
        MarkStep(text, if s.depth != 1 then s.(phase := AgentParsed) else s, false)
      case AgentParsed =>
        Go(rest, s)
  }

  /** A character of a length mark, or the colon that ends it. */
  function MarkStep(text: string, s: State, isUrl: bool): Move
    requires text != ""
  {
    if text[0] != ':' then Go(text[1..], s.(tmp := s.tmp + [text[0]]))
    else Announced(text, s.tmp, s, isUrl)
  }

  /** The loop from any of its states. */
  function Run(text: string, s: State): Answer
    decreases |text|
  {
    if text == "" then
      if s.hds.url == "" then Answer(2, s.hds.(lastError := NoUrl)) else Answer(0, s.hds)
    else
      match Step(text, s)
      case Halt(a) => a
      case Go(rest, s') => Run(rest, s')
  }

  function Begin(hds: Hds): State {
    State(Start, 0, "", hds)
  }

  /** ParseSubversionHds on a buffer and the structure it fills. */
  function Parse(buffer: string, hds: Hds): Answer {
    if buffer == "" then Answer(1, hds.(lastError := EmptyBuffer)) else Run(buffer, Begin(hds))
  }
}
