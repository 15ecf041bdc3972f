/** What the handshake reader guarantees: it understands every well-formed response, it moves strictly
    forward, and what it accepts is a slice of the buffer. */
module HandshakeLaws {
  import opened Wrappers
  import opened Decimal
  import opened Handshake

  // ---------------------------------------------------------------- well-formed responses

  /** Section 2 of the ra_svn protocol: ( version ( cap ... ) url ? ra-client ( ? client ) ). */
  datatype Response = Response(version: uint32, caps: seq<string>, url: string, agent: Option<Agent>)

  datatype Agent = Agent(name: string, client: Option<string>)

  predicate IsSeparator(s: string) {
    s != "" && forall i :: 0 <= i < |s| ==> s[i] == ' ' || s[i] == '\n'
  }

  predicate IsCapability(w: string) {
    w != "" && forall i :: 0 <= i < |w| ==> w[i] !in {'(', ')', ' ', '\n', '\0'}
  }

  predicate NulFree(s: string) {
    forall i :: 0 <= i < |s| ==> s[i] != '\0'
  }

  ghost predicate WellFormed(r: Response) {
    && r.version < 10
    && (forall i :: 0 <= i < |r.caps| ==> IsCapability(r.caps[i]))
    && 0 < |r.url| <= LONG_MAX
    && (r.agent.Some? ==> |r.agent.value.name| <= LONG_MAX)
    && (r.agent.Some? && r.agent.value.client.Some? ==> NulFree(r.agent.value.client.value))
  }

  /** The item syntax of section 1: every item is followed by white space, here `sep(k)` for the k-th item. */
  ghost function PrintString(s: string, sep: string): string {
    Dec(|s|) + ":" + s + sep
  }

  ghost function PrintCaps(caps: seq<string>, sep: nat -> string, k: nat): string {
    if caps == [] then "" else caps[0] + sep(k) + PrintCaps(caps[1..], sep, k + 1)
  }

  ghost function PrintAgent(agent: Option<Agent>, sep: nat -> string): string {
    match agent
    case None => ""
    case Some(Agent(name, client)) =>
      PrintString(name, sep(5)) + "(" + sep(6)
      + (if client.Some? then PrintString(client.value, sep(7)) else "") + ")" + sep(8)
  }

  /** What stands before the capabilities, and before the URL. */
  ghost function PrintOpening(r: Response, sep: nat -> string): string {
    "(" + sep(0) + Dec(r.version) + sep(1) + "(" + sep(2)
  }

  ghost function PrintHead(r: Response, sep: nat -> string): string {
    PrintOpening(r, sep) + PrintCaps(r.caps, sep, 10) + ")" + sep(3)
  }

  ghost function Print(r: Response, sep: nat -> string): string {
    PrintHead(r, sep) + PrintString(r.url, sep(4)) + PrintAgent(r.agent, sep) + ")" + sep(9)
  }

  /** The fields that reading a response should give. */
  function Fields(r: Response): Hds {
    Hds(r.version, r.caps, r.url, if r.agent.Some? then r.agent.value.name else "", NoComplaint)
  }

  // ---------------------------------------------------------------- reading piece by piece

  /** White space changes nothing unless it ends a capability word. */
  lemma {:induction false} RunBlanks(ws: string, rest: string, s: State)
    requires forall i :: 0 <= i < |ws| ==> IsBlank(ws[i])
    requires s.phase.ProtocolParsed? ==> s.tmp == ""
    ensures Run(ws + rest, s) == Run(rest, s)
  {
    if ws == "" {
      assert ws + rest == rest;
    } else {
      assert (ws + rest)[1..] == ws[1..] + rest;
      RunBlanks(ws[1..], rest, s);
    }
  }

  lemma StepPunctuation(c: char, rest: string, s: State)
    requires c == '(' || c == ')'
    ensures Step([c] + rest, s) == Go(rest, s.(depth := if c == '(' then Up(s.depth) else Down(s.depth)))
  {
    assert ([c] + rest)[1..] == rest;
  }

  lemma RunOpen(rest: string, s: State)
    requires s.depth + 1 < UINT_SIZE
    ensures Run("(" + rest, s) == Run(rest, s.(depth := s.depth + 1))
  {
    hide Step;
    StepPunctuation('(', rest, s);
  }

  lemma RunClose(rest: string, s: State)
    requires 0 < s.depth
    ensures Run(")" + rest, s) == Run(rest, s.(depth := s.depth - 1))
  {
    hide Step;
    StepPunctuation(')', rest, s);
  }

  lemma RunVersion(version: nat, rest: string, s: State)
    requires version < 10 && s.phase.Start? && s.depth == 1
    ensures Run(Dec(version) + rest, s) == Run(rest, s.(phase := ProtocolParsed, hds := s.hds.(protocol := version)))
  {
    var d := Dec(version);
    assert (d + rest)[1..] == rest;
  }

  /** The letters of a capability word. */
  lemma {:induction false} RunWord(w: string, rest: string, s: State)
    requires forall i :: 0 <= i < |w| ==> !IsPunctuation(w[i])
    requires s.phase.ProtocolParsed? && s.depth == 2
    ensures Run(w + rest, s) == Run(rest, s.(tmp := s.tmp + w))
  {
    if w == "" {
      assert w + rest == rest && s.tmp + w == s.tmp;
    } else {
      assert (w + rest)[1..] == w[1..] + rest;
      RunWord(w[1..], rest, s.(tmp := s.tmp + [w[0]]));
      assert s.tmp + [w[0]] + w[1..] == s.tmp + w;
    }
  }

  lemma CapabilityIsWord(w: string)
    requires IsCapability(w)
    ensures forall i :: 0 <= i < |w| ==> !IsPunctuation(w[i])
  {
  }

  lemma RunCapability(w: string, sep: string, rest: string, s: State)
    requires IsCapability(w) && IsSeparator(sep)
    requires s.phase.ProtocolParsed? && s.depth == 2 && s.tmp == ""
    ensures Run(w + sep + rest, s) == Run(rest, s.(hds := s.hds.(capabilities := s.hds.capabilities + [w])))
  {
    hide IsPunctuation;
    assert w + sep + rest == w + (sep + rest);
    CapabilityIsWord(w);
    RunWord(w, sep + rest, s);
    assert s.tmp + w == w;
    var t := s.(hds := s.hds.(capabilities := s.hds.capabilities + [w]));
    assert (sep + rest)[1..] == sep[1..] + rest;
    RunBlanks(sep[1..], rest, t);
  }

  lemma {:induction false} RunCaps(caps: seq<string>, sep: nat -> string, k: nat, rest: string, s: State)
    requires forall i :: 0 <= i < |caps| ==> IsCapability(caps[i])
    requires forall i: nat :: IsSeparator(sep(i))
    requires s.phase.ProtocolParsed? && s.depth == 2 && s.tmp == ""
    ensures Run(PrintCaps(caps, sep, k) + rest, s)
         == Run(rest, s.(hds := s.hds.(capabilities := s.hds.capabilities + caps)))
  {
    if caps == [] {
      assert "" + rest == rest && s.hds.capabilities + [] == s.hds.capabilities;
    } else {
      var more := PrintCaps(caps[1..], sep, k + 1);
      assert PrintCaps(caps, sep, k) + rest == caps[0] + sep(k) + (more + rest);
      RunCapability(caps[0], sep(k), more + rest, s);
      RunCaps(caps[1..], sep, k + 1, rest, s.(hds := s.hds.(capabilities := s.hds.capabilities + [caps[0]])));
      assert s.hds.capabilities + [caps[0]] + caps[1..] == s.hds.capabilities + caps;
    }
  }

  /** The states in which the digits of a length mark are collected. */
  predicate Marking(s: State, isUrl: bool) {
    s.depth == 1 && (if isUrl then s.phase.CapabilitiesParsed? else s.phase.UrlParsed?)
  }

  lemma {:induction false} RunDigits(digits: string, rest: string, s: State, isUrl: bool)
    requires AllDigits(digits) && Marking(s, isUrl)
    ensures Run(digits + rest, s) == Run(rest, s.(tmp := s.tmp + digits))
  {
    if digits == "" {
      assert digits + rest == rest && s.tmp + digits == s.tmp;
    } else {
      assert (digits + rest)[1..] == digits[1..] + rest;
      assert IsDigit(digits[0]);
      RunDigits(digits[1..], rest, s.(tmp := s.tmp + [digits[0]]), isUrl);
      assert s.tmp + [digits[0]] + digits[1..] == s.tmp + digits;
    }
  }

  lemma StepMark(text: string, s: State, isUrl: bool)
    requires text != "" && text[0] == ':' && Marking(s, isUrl)
    ensures Step(text, s) == Announced(text, s.tmp, s, isUrl)
  {
    hide Announced;
  }

  lemma SlicesOf(body: string, after: string)
    requires after != ""
    ensures var text := ":" + (body + after);
            text[1..1 + |body|] == body && text[|body| + 2..] == after[1..]
  {
  }

  lemma AnnouncedString(body: string, after: string, s: State, isUrl: bool)
    requires |body| <= LONG_MAX && after != ""
    ensures Announced(":" + (body + after), Dec(|body|), s, isUrl) == Go(after[1..], Stored(s, body, isUrl))
  {
    hide StrToL, Stored;
    StrToLDec(|body|);
    SlicesOf(body, after);
  }

  /** A counted string of arbitrary bytes and its separator. */
  lemma RunString(body: string, sep: string, rest: string, s: State, isUrl: bool)
    requires |body| <= LONG_MAX && IsSeparator(sep)
    requires Marking(s, isUrl) && s.tmp == ""
    ensures Run(PrintString(body, sep) + rest, s) == Run(rest, Stored(s, body, isUrl))
  {
    hide Step, Announced;
    var mark, after := Dec(|body|), body + (sep + rest);
    assert PrintString(body, sep) + rest == mark + (":" + after);
    RunDigits(mark, ":" + after, s, isUrl);
    assert s.tmp + mark == mark;
    StepMark(":" + after, s.(tmp := mark), isUrl);
    AnnouncedString(body, sep + rest, s.(tmp := mark), isUrl);
    assert (sep + rest)[1..] == sep[1..] + rest;
    RunBlanks(sep[1..], rest, Stored(s, body, isUrl));
  }

  /** The first character of a length mark behind the capability list leaves the list. */
  lemma LeavesList(text: string, s: State)
    requires text != "" && IsDigit(text[0]) && s.phase.ProtocolParsed? && s.depth == 1 && s.tmp == ""
    ensures Run(text, s) == Run(text, s.(phase := CapabilitiesParsed))
  {
  }

  lemma RunUrl(url: string, sep: string, rest: string, s: State)
    requires |url| <= LONG_MAX && IsSeparator(sep)
    requires s.phase.ProtocolParsed? && s.depth == 1 && s.tmp == ""
    ensures Run(PrintString(url, sep) + rest, s) == Run(rest, Stored(s, url, true))
  {
    var text := PrintString(url, sep) + rest;
    assert IsDigit(text[0]);
    LeavesList(text, s);
    RunString(url, sep, rest, s.(phase := CapabilitiesParsed), true);
  }

  /** Behind the user agent only a NUL matters. */
  lemma {:induction false} RunTail(rest: string, s: State)
    requires NulFree(rest) && s.phase.AgentParsed? && s.hds.url != ""
    ensures Run(rest, s) == Answer(0, s.hds)
  {
    if rest != "" {
      match Step(rest, s) {
        case Go(rest', s') => RunTail(rest', s');
        case Halt(_) => assert false;
      }
    }
  }

  lemma NulFreeAppend(a: string, b: string)
    requires NulFree(a) && NulFree(b)
    ensures NulFree(a + b)
  {
  }

  /** Everything behind the URL: with a user agent it is stored, the rest is passed over. */
  lemma RunAgent(agent: Option<Agent>, sep: nat -> string, s: State)
    requires forall i: nat :: IsSeparator(sep(i))
    requires s.phase.UrlParsed? && s.depth == 1 && s.tmp == "" && s.hds.url != ""
    requires agent.Some? ==> |agent.value.name| <= LONG_MAX
    requires agent.Some? && agent.value.client.Some? ==> NulFree(agent.value.client.value)
    ensures Run(PrintAgent(agent, sep) + (")" + sep(9)), s)
         == Answer(0, if agent.Some? then s.hds.(userAgent := agent.value.name) else s.hds)
  {
    hide Step;
    match agent
    case None =>
      assert "" + (")" + sep(9)) == ")" + sep(9);
      RunClose(sep(9), s);
      assert sep(9) + "" == sep(9);
      RunBlanks(sep(9), "", s.(depth := 0));
    case Some(Agent(name, client)) =>
      var tail := "(" + sep(6) + (if client.Some? then PrintString(client.value, sep(7)) else "") + ")" + sep(8)
                  + (")" + sep(9));
      assert PrintAgent(agent, sep) + (")" + sep(9)) == PrintString(name, sep(5)) + tail;
      RunString(name, sep(5), tail, s, false);
      TailIsNulFree(client, sep);
      RunTail(tail, Stored(s, name, false));
  }

  lemma TailIsNulFree(client: Option<string>, sep: nat -> string)
    requires forall i: nat :: IsSeparator(sep(i))
    requires client.Some? ==> NulFree(client.value)
    ensures NulFree("(" + sep(6) + (if client.Some? then PrintString(client.value, sep(7)) else "") + ")" + sep(8)
                    + (")" + sep(9)))
  {
    forall i: nat
      ensures NulFree(sep(i))
    {
      assert IsSeparator(sep(i));
    }
    var text := if client.Some? then PrintString(client.value, sep(7)) else "";
    assert NulFree(text) by {
      if client.Some? {
        DigitsAreNulFree(Dec(|client.value|));
        NulFreeAppend(Dec(|client.value|) + ":" + client.value, sep(7));
      }
    }
    NulFreeAppend("(" + sep(6), text);
    NulFreeAppend("(" + sep(6) + text + ")", sep(8));
    NulFreeAppend("(" + sep(6) + text + ")" + sep(8), ")" + sep(9));
  }

  lemma DigitsAreNulFree(s: string)
    requires AllDigits(s)
    ensures NulFree(s)
  {
    assert forall i :: 0 <= i < |s| ==> IsDigit(s[i]);
  }

  /** The state in which the reader comes to the URL. */
  function AtUrl(r: Response): State {
    State(ProtocolParsed, 1, "", NO_HDS.(protocol := r.version, capabilities := r.caps))
  }

  function AtCaps(r: Response): State {
    State(ProtocolParsed, 2, "", NO_HDS.(protocol := r.version))
  }

  lemma RunOpening(r: Response, sep: nat -> string, rest: string)
    requires WellFormed(r) && forall i: nat :: IsSeparator(sep(i))
    ensures Run(PrintOpening(r, sep) + rest, Begin(NO_HDS)) == Run(rest, AtCaps(r))
  {
    hide Step;
    var t2 := sep(1) + ("(" + (sep(2) + rest));
    var t1 := sep(0) + (Dec(r.version) + t2);
    OpeningRegrouped(r, sep, rest);
    var s := Begin(NO_HDS);
    RunOpen(t1, s);
    RunBlanks(sep(0), Dec(r.version) + t2, s.(depth := 1));
    RunVersion(r.version, t2, s.(depth := 1));
    var v := State(ProtocolParsed, 1, "", NO_HDS.(protocol := r.version));
    RunBlanks(sep(1), "(" + (sep(2) + rest), v);
    RunOpen(sep(2) + rest, v);
    RunBlanks(sep(2), rest, AtCaps(r));
  }

  lemma OpeningRegrouped(r: Response, sep: nat -> string, rest: string)
    ensures PrintOpening(r, sep) + rest == "(" + (sep(0) + (Dec(r.version) + (sep(1) + ("(" + (sep(2) + rest)))))
  {
    hide Dec;
  }

  lemma RunHead(r: Response, sep: nat -> string, rest: string)
    requires WellFormed(r) && forall i: nat :: IsSeparator(sep(i))
    ensures Run(PrintHead(r, sep) + rest, Begin(NO_HDS)) == Run(rest, AtUrl(r))
  {
    hide Step, PrintOpening;
    var caps, more := PrintCaps(r.caps, sep, 10), ")" + (sep(3) + rest);
    HeadRegrouped(r, sep, rest);
    RunOpening(r, sep, caps + more);
    RunCaps(r.caps, sep, 10, more, AtCaps(r));
    assert [] + r.caps == r.caps;
    RunClose(sep(3) + rest, AtUrl(r).(depth := 2));
    RunBlanks(sep(3), rest, AtUrl(r));
  }

  lemma HeadRegrouped(r: Response, sep: nat -> string, rest: string)
    ensures PrintHead(r, sep) + rest
         == PrintOpening(r, sep) + (PrintCaps(r.caps, sep, 10) + (")" + (sep(3) + rest)))
  {
    hide PrintCaps, PrintOpening, Dec;
  }

  /** Every well-formed response is accepted with exactly its fields, whatever the white space. */
  lemma ParsePrint(r: Response, sep: nat -> string)
    requires WellFormed(r) && forall i: nat :: IsSeparator(sep(i))
    ensures Parse(Print(r, sep), NO_HDS) == Answer(0, Fields(r))
  {
    hide Step, PrintHead;
    var end := PrintAgent(r.agent, sep) + (")" + sep(9));
    PrintRegrouped(r, sep);
    RunHead(r, sep, PrintString(r.url, sep(4)) + end);
    RunUrl(r.url, sep(4), end, AtUrl(r));
    RunAgent(r.agent, sep, Stored(AtUrl(r), r.url, true));
  }

  lemma PrintRegrouped(r: Response, sep: nat -> string)
    ensures Print(r, sep)
         == PrintHead(r, sep) + (PrintString(r.url, sep(4)) + (PrintAgent(r.agent, sep) + (")" + sep(9))))
  {
    hide PrintString, PrintCaps, PrintAgent, Dec;
  }

  // ---------------------------------------------------------------- runs over any buffer

  /** The loop's position and state after `n` turns, while it is still running. */
  ghost function After(text: string, s: State, n: nat): Option<(string, State)> {
    if n == 0 then Some((text, s))
    else
      match After(text, s, n - 1)
      case None => None
      case Some(at) =>
        if at.0 == "" then None
        else match Step(at.0, at.1) { case Halt(_) => None case Go(rest, s') => Some((rest, s')) }
  }

  ghost predicate IsSuffix(t: string, text: string) {
    |t| <= |text| && text[|text| - |t|..] == t
  }

  /** One turn: strictly forward, never back to an earlier phase, and no capability once the list is closed. */
  lemma StepProgress(text: string, s: State)
    requires text != "" && Step(text, s).Go?
    ensures var rest, s' := Step(text, s).rest, Step(text, s).state;
            && |rest| < |text| && IsSuffix(rest, text)
            && s.phase.Rank() <= s'.phase.Rank()
            && s.hds.capabilities <= s'.hds.capabilities
            && (s.phase.Rank() >= 2 ==> s'.hds.capabilities == s.hds.capabilities)
            && (s.phase.Rank() >= 3 ==> s'.hds.url == s.hds.url)
  {
    hide StrToL;
  }

  /** The same between any two moments of a run. */
  lemma {:induction false} RunProgress(text: string, s: State, n: nat, m: nat)
    requires n < m && After(text, s, m).Some?
    ensures After(text, s, n).Some?
    ensures var (t1, s1), (t2, s2) := After(text, s, n).value, After(text, s, m).value;
            && |t2| < |t1| && IsSuffix(t2, t1)
            && s1.phase.Rank() <= s2.phase.Rank()
            && s1.hds.capabilities <= s2.hds.capabilities
            && (s1.phase.Rank() >= 2 ==> s2.hds.capabilities == s1.hds.capabilities)
            && (s1.phase.Rank() >= 3 ==> s2.hds.url == s1.hds.url)
  {
    hide Step;
    var at := After(text, s, m - 1).value;
    StepProgress(at.0, at.1);
    if n < m - 1 {
      RunProgress(text, s, n, m - 1);
    }
  }

  /** The characters of a length mark as they stand in the buffer, white space and parentheses left out. */
  function Letters(s: string): string {
    if s == "" then ""
    else Letters(s[..|s| - 1]) + (if IsPunctuation(s[|s| - 1]) then "" else [s[|s| - 1]])
  }

  /** The reader of `b` comes to position `n` in state `s`. */
  ghost predicate Reaches(b: string, n: nat, s: State) {
    n <= |b| && exists m: nat :: After(b, Begin(NO_HDS), m) == Some((b[n..], s))
  }

  /** The length mark of the URL begins at `k`: the reader comes there behind the capabilities. */
  ghost predicate MarkBegins(b: string, k: nat) {
    k < |b| && !IsPunctuation(b[k])
    && exists s: State :: Reaches(b, k, s) && s.phase.ProtocolParsed? && s.depth != 2
  }

  /** `url` stands in the buffer behind the colon at `i`, the first one behind the beginning of the URL's length
      mark at `k`, and everything between announces its length. */
  ghost predicate UrlStandsAt(b: string, url: string, k: nat, i: nat) {
    && k <= i && i + 1 + |url| < |b|
    && MarkBegins(b, k)
    && b[i] == ':' && ':' !in b[k..i]
    && url == b[i + 1..i + 1 + |url|]
    && StrToL(Letters(b[k..i])) == |url|
  }

  /** The reader is in the mark that begins at `k`. */
  ghost predicate InMark(b: string, k: nat, n: nat, s: State) {
    k <= n <= |b| && MarkBegins(b, k) && ':' !in b[k..n] && s.tmp == Letters(b[k..n])
  }

  ghost predicate UrlInvariant(b: string, n: nat, s: State) {
    && n <= |b|
    && Reaches(b, n, s)
    && match s.phase
       case Start => s.hds.url == ""
       case ProtocolParsed => s.hds.url == ""
       case CapabilitiesParsed => s.hds.url == "" && exists k: nat :: InMark(b, k, n, s)
       case _ => exists k: nat, i: nat :: UrlStandsAt(b, s.hds.url, k, i)
  }

  lemma AfterNext(b: string, s0: State, m: nat, text: string, s: State)
    requires After(b, s0, m) == Some((text, s)) && text != "" && Step(text, s).Go?
    ensures After(b, s0, m + 1) == Some((Step(text, s).rest, Step(text, s).state))
  {
    hide Step;
  }

  lemma ReachesNext(b: string, n: nat, s: State)
    requires n < |b| && Reaches(b, n, s) && Step(b[n..], s).Go?
    ensures IsSuffix(Step(b[n..], s).rest, b)
    ensures Reaches(b, |b| - |Step(b[n..], s).rest|, Step(b[n..], s).state)
  {
    hide Step, After, IsSuffix;
    var m: nat :| After(b, Begin(NO_HDS), m) == Some((b[n..], s));
    StepProgress(b[n..], s);
    AfterNext(b, Begin(NO_HDS), m, b[n..], s);
    SuffixOfSuffix(Step(b[n..], s).rest, n, b);
    SuffixIs(Step(b[n..], s).rest, b);
  }

  lemma SuffixIs(t: string, b: string)
    requires IsSuffix(t, b)
    ensures |t| <= |b| && b[|b| - |t|..] == t
  {
  }

  lemma SuffixOfSuffix(t: string, n: nat, b: string)
    requires n <= |b| && IsSuffix(t, b[n..])
    ensures IsSuffix(t, b)
  {
  }

  lemma LettersGrow(b: string, k: nat, n: nat)
    requires k <= n < |b|
    ensures Letters(b[k..n + 1]) == Letters(b[k..n]) + (if IsPunctuation(b[n]) then "" else [b[n]])
  {
    assert b[k..n + 1][..n - k] == b[k..n];
  }

  /** What the mark gives way to. */
  ghost predicate BehindMark(b: string, n: nat, s: State) {
    if s.phase.CapabilitiesParsed? then s.hds.url == "" && exists k: nat :: InMark(b, k, n, s)
    else s.phase.UrlParsed? && exists k: nat, i: nat :: UrlStandsAt(b, s.hds.url, k, i)
  }

  lemma MarkKeepsUrl(b: string, n: nat, k: nat, s: State) returns (n': nat)
    requires n < |b| && !IsPunctuation(b[n]) && InMark(b, k, n, s)
    requires s.phase.CapabilitiesParsed? && s.hds.url == ""
    requires MarkStep(b[n..], s, true).Go?
    ensures n < n' <= |b| && MarkStep(b[n..], s, true).rest == b[n'..]
    ensures BehindMark(b, n', MarkStep(b[n..], s, true).state)
  {
    hide StrToL, MarkBegins, Letters;
    LettersGrow(b, k, n);
    if b[n] != ':' {
      n' := n + 1;
      OneLonger(b, k, n);
      assert InMark(b, k, n', MarkStep(b[n..], s, true).state);
    } else {
      var l := StrToL(s.tmp);
      n' := n + l + 2;
      assert b[n..][1..1 + l] == b[n + 1..n + 1 + l];
      assert UrlStandsAt(b, b[n + 1..n + 1 + l], k, n);
    }
  }

  lemma StepKeepsUrl(b: string, n: nat, s: State) returns (n': nat)
    requires n < |b| && UrlInvariant(b, n, s) && Step(b[n..], s).Go?
    ensures n < n' <= |b| && Step(b[n..], s).rest == b[n'..]
    ensures UrlInvariant(b, n', Step(b[n..], s).state)
  {
    hide StrToL, IsPunctuation, UrlStandsAt, MarkStep, Letters, MarkBegins, Reaches;
    StepProgress(b[n..], s);
    ReachesNext(b, n, s);
    n' := |b| - |Step(b[n..], s).rest|;
    PunctuationIs(b[n]);
    if s.phase.CapabilitiesParsed? {
      var k: nat :| InMark(b, k, n, s);
      if !IsPunctuation(b[n]) {
        n' := MarkKeepsUrl(b, n, k, s);
      } else {
        StaysInMark(b, k, n, s);
        assert InMark(b, k, n', Step(b[n..], s).state);
      }
    } else if s.phase.ProtocolParsed? && !IsPunctuation(b[n]) && s.depth != 2 {
      MarkOpens(b, n, s);
      n' := MarkKeepsUrl(b, n, n, s.(phase := CapabilitiesParsed, tmp := ""));
    } else if s.phase.UrlParsed? && !IsPunctuation(b[n]) {
      AgentMarkKeepsUrl(b[n..], if s.depth != 1 then s.(phase := AgentParsed) else s);
    }
  }

  lemma MarkOpens(b: string, n: nat, s: State)
    requires n < |b| && Reaches(b, n, s) && s.phase.ProtocolParsed? && !IsPunctuation(b[n]) && s.depth != 2
    ensures InMark(b, n, n, s.(phase := CapabilitiesParsed, tmp := ""))
  {
    hide Reaches;
    EmptyLetters(b, n);
    assert b[n..n] == "";
  }

  lemma StaysInMark(b: string, k: nat, n: nat, s: State)
    requires n < |b| && InMark(b, k, n, s) && IsPunctuation(b[n])
    ensures k <= n + 1 <= |b| && MarkBegins(b, k) && ':' !in b[k..n + 1] && s.tmp == Letters(b[k..n + 1])
  {
    hide MarkBegins, Letters, IsPunctuation;
    PunctuationIs(b[n]);
    LettersGrow(b, k, n);
    OneLonger(b, k, n);
  }

  lemma OneLonger(b: string, k: nat, n: nat)
    requires k <= n < |b|
    ensures b[k..n + 1] == b[k..n] + [b[n]]
  {
  }

  lemma PunctuationIs(c: char)
    ensures IsPunctuation(c) <==> c == '(' || c == ')' || IsBlank(c) || c == '\0'
  {
  }

  lemma EmptyLetters(b: string, n: nat)
    requires n <= |b|
    ensures Letters(b[n..n]) == ""
  {
  }

  lemma AgentMarkKeepsUrl(text: string, s: State)
    requires text != "" && MarkStep(text, s, false).Go? && s.phase.Rank() >= 3
    ensures MarkStep(text, s, false).state.phase.Rank() >= 3
    ensures MarkStep(text, s, false).state.hds.url == s.hds.url
  {
  }

  lemma {:induction false} RunKeepsUrl(b: string, n: nat, s: State)
    requires UrlInvariant(b, n, s)
    ensures var a := Run(b[n..], s);
            a.Answer? && a.code == 0 ==>
              a.hds.url != "" && exists k: nat, i: nat :: UrlStandsAt(b, a.hds.url, k, i)
    decreases |b| - n
  {
    hide Step, UrlStandsAt, Reaches;
    if n < |b| && Step(b[n..], s).Go? {
      var n' := StepKeepsUrl(b, n, s);
      RunKeepsUrl(b, n', Step(b[n..], s).state);
    } else if n < |b| {
      HaltIsNoSuccess(b[n..], s);
    }
  }

  lemma HaltIsNoSuccess(text: string, s: State)
    requires text != "" && Step(text, s).Halt?
    ensures Step(text, s).answer.Answer? ==> Step(text, s).answer.code == 2
  {
    hide StrToL;
  }

  /** An accepted handshake has a non-empty URL: the slice of the buffer behind the first colon of its length mark,
      as long as the whole mark announces. */
  lemma AcceptedUrl(b: string)
    requires Parse(b, NO_HDS).Answer? && Parse(b, NO_HDS).code == 0
    ensures var url := Parse(b, NO_HDS).hds.url;
            url != "" && exists k: nat, i: nat :: UrlStandsAt(b, url, k, i)
  {
    hide UrlStandsAt, Step;
    assert b[0..] == b;
    assert After(b, Begin(NO_HDS), 0) == Some((b[0..], Begin(NO_HDS)));
    RunKeepsUrl(b, 0, Begin(NO_HDS));
  }
}
