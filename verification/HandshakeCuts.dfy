/** The session reads the handshake with a single read, which may end anywhere in it. */
module HandshakeCuts {
  import opened Wrappers
  import opened Decimal
  import opened Handshake
  import opened HandshakeLaws

  /** How long a first part must be to hold the colon of the URL's length mark. */
  ghost function UrlBegin(r: Response, sep: nat -> string): nat {
    |PrintHead(r, sep)| + |Dec(|r.url|)| + 1
  }

  /** How long a first part must be to hold the URL and the character behind it. */
  ghost function UrlEnd(r: Response, sep: nat -> string): nat {
    |PrintHead(r, sep)| + |Dec(|r.url|)| + |r.url| + 2
  }

  /** Where the colon of the user agent's length mark stands. */
  ghost function AgentColon(r: Response, sep: nat -> string): nat
    requires r.agent.Some?
  {
    |PrintHead(r, sep)| + |PrintString(r.url, sep(4))| + |Dec(|r.agent.value.name|)|
  }

  /** How long a first part must be to hold the user agent's name and the character behind it. */
  ghost function AgentEnd(r: Response, sep: nat -> string): nat
    requires r.agent.Some?
  {
    AgentColon(r, sep) + |r.agent.value.name| + 2
  }

  /** The first `n` characters hold the URL and do not end within the user agent's name, its colon included. */
  ghost predicate Served(r: Response, sep: nat -> string, n: nat) {
    n >= UrlEnd(r, sep) && (r.agent.Some? ==> n <= AgentColon(r, sep) || n >= AgentEnd(r, sep))
  }

  /** The user agent when the first `n` characters hold it. */
  ghost function Cut(r: Response, sep: nat -> string, n: nat): Response {
    if r.agent.Some? && n < AgentEnd(r, sep) then r.(agent := None) else r
  }

  /** Refused with this complaint. */
  predicate IsRefused(a: Answer, c: Complaint) {
    a.Answer? && a.code == 2 && a.hds.lastError == c
  }

  // ---------------------------------------------------------------- longer texts

  /** What a turn does when `q` follows in the buffer: the same, unless the buffer was too short for it. */
  predicate Longer(move: Move, longer: Move, q: string) {
    match move
    case Go(rest, s) => longer == Go(rest + q, s)
    case Halt(answer) => if answer.Unspecified? then longer == move else answer.code == 2
  }

  lemma AnnouncedLonger(p: string, q: string, mark: string, s: State, isUrl: bool)
    requires p != ""
    ensures Longer(Announced(p, mark, s, isUrl), Announced(p + q, mark, s, isUrl), q)
  {
    hide StrToL, Stored;
    if Announced(p, mark, s, isUrl).Go? {
      SlicesLonger(p, q, StrToL(mark));
    }
  }

  lemma StepLonger(p: string, q: string, s: State)
    requires p != ""
    ensures Longer(Step(p, s), Step(p + q, s), q)
  {
    hide Announced;
    assert (p + q)[1..] == p[1..] + q;
    if p[0] == ':' {
      match s.phase
      case ProtocolParsed =>
        if s.depth != 2 {
          AnnouncedLonger(p, q, "", s.(phase := CapabilitiesParsed, tmp := ""), true);
        }
      case CapabilitiesParsed =>
        AnnouncedLonger(p, q, s.tmp, s, true);
      case UrlParsed =>
        AnnouncedLonger(p, q, s.tmp, if s.depth != 1 then s.(phase := AgentParsed) else s, false);
      case Start =>
      case AgentParsed =>
    }
  }

  lemma SlicesLonger(p: string, q: string, l: nat)
    requires l + 1 < |p|
    ensures (p + q)[1..1 + l] == p[1..1 + l] && (p + q)[l + 2..] == p[l + 2..] + q
  {
  }

  /** Once it is stored the URL stays. */
  lemma {:induction false} UrlFrozen(text: string, s: State)
    requires s.phase.Rank() >= 3
    ensures var a := Run(text, s); a.Answer? ==> a.hds.url == s.hds.url
    decreases |text|
  {
    hide Step;
    if text != "" {
      if Step(text, s).Go? {
        StepProgress(text, s);
        UrlFrozen(Step(text, s).rest, Step(text, s).state);
      } else {
        HaltKeepsUrl(text, s);
      }
    }
  }

  lemma HaltKeepsUrl(text: string, s: State)
    requires text != "" && Step(text, s).Halt?
    ensures var a := Step(text, s).answer; a.Answer? ==> a.hds.url == s.hds.url
  {
    hide StrToL;
  }

  lemma UrlIsStoredLate(text: string, s: State)
    requires text != "" && Step(text, s).Go? && (s.hds.url != "" ==> s.phase.Rank() >= 3)
    ensures Step(text, s).state.hds.url != "" ==> Step(text, s).state.phase.Rank() >= 3
  {
    hide StrToL;
  }

  /** A buffer that is no more than the first part of one with an answer has an answer, and when it is served it has
      the same URL. */
  lemma {:induction false} RunLonger(p: string, q: string, s: State)
    requires s.hds.url != "" ==> s.phase.Rank() >= 3
    requires Run(p + q, s).Answer?
    ensures Run(p, s).Answer? && (Run(p, s).code == 0 || Run(p, s).code == 2)
    ensures Run(p, s).code == 0 ==> Run(p, s).hds.url != "" && Run(p + q, s).hds.url == Run(p, s).hds.url
    decreases |p|
  {
    hide Step;
    if p == "" {
      assert p + q == q;
      if s.hds.url != "" {
        UrlFrozen(q, s);
      }
    } else {
      StepLonger(p, q, s);
      if Step(p, s).Go? {
        StepProgress(p, s);
        UrlIsStoredLate(p, s);
        RunLonger(Step(p, s).rest, q, Step(p, s).state);
      }
    }
  }

  /** The same of whole buffers. */
  lemma LongerBuffer(p: string, q: string)
    requires p != "" && Parse(p + q, NO_HDS).Answer?
    ensures var a := Parse(p, NO_HDS);
            && a.Answer? && (a.code == 0 || a.code == 2)
            && (a.code == 0 ==> a.hds.url != "" && Parse(p + q, NO_HDS).hds.url == a.hds.url)
  {
    hide Run;
    RunLonger(p, q, Begin(NO_HDS));
  }

  // ---------------------------------------------------------------- cuts

  lemma CutJoin(a: string, b: string, n: nat)
    requires n <= |a| + |b|
    ensures (a + b)[..n] == if n <= |a| then a[..n] else a + b[..n - |a|]
  {
  }

  lemma CutColon(text: string, k: nat)
    requires k <= |text|
    ensures (":" + text)[..k + 1] == ":" + text[..k]
  {
  }

  /** A text without colon and NUL behind the URL stores nothing. */
  lemma {:induction false} RunQuiet(text: string, s: State)
    requires NulFree(text) && ':' !in text && s.phase.Rank() >= 3 && s.hds.url != ""
    ensures Run(text, s) == Answer(0, s.hds)
  {
    hide Step;
    if text != "" {
      QuietStep(text, s);
      RunQuiet(text[1..], Step(text, s).state);
    }
  }

  lemma QuietStep(text: string, s: State)
    requires text != "" && NulFree(text) && ':' !in text && s.phase.Rank() >= 3
    ensures Step(text, s).Go? && Step(text, s).rest == text[1..]
    ensures Step(text, s).state.phase.Rank() >= 3 && Step(text, s).state.hds == s.hds
  {
  }

  /** A counted string that is cut behind the colon of its length mark. */
  lemma RunCutString(body: string, after: string, k: nat, s: State, isUrl: bool)
    requires |body| <= LONG_MAX && Marking(s, isUrl) && s.tmp == "" && k <= |body| + |after|
    ensures var a := Run(Dec(|body|) + (":" + (body + after)[..k]), s);
            if k <= |body| then IsRefused(a, if isUrl then UrlMarkTooLong else AgentMarkTooLong)
            else a == Run(after[1..k - |body|], Stored(s, body, isUrl))
  {
    hide Step, Announced, StrToL, Stored;
    var mark, cut := Dec(|body|), (body + after)[..k];
    RunDigits(mark, ":" + cut, s, isUrl);
    assert s.tmp + mark == mark;
    StepMark(":" + cut, s.(tmp := mark), isUrl);
    if k <= |body| {
      TooShort(cut, |body|, s.(tmp := mark), isUrl);
    } else {
      CutJoin(body, after, k);
      AnnouncedString(body, after[..k - |body|], s.(tmp := mark), isUrl);
      assert after[..k - |body|][1..] == after[1..k - |body|];
      StoredForgets(s, mark, body, isUrl);
    }
  }

  lemma StoredForgets(s: State, mark: string, body: string, isUrl: bool)
    ensures Stored(s.(tmp := mark), body, isUrl) == Stored(s, body, isUrl)
  {
  }

  lemma TooShort(cut: string, l: nat, s: State, isUrl: bool)
    requires |cut| <= l <= LONG_MAX
    ensures var move := Announced(":" + cut, Dec(l), s, isUrl);
            move.Halt? && IsRefused(move.answer, if isUrl then UrlMarkTooLong else AgentMarkTooLong)
  {
    hide StrToL;
    StrToLDec(l);
  }

  // ---------------------------------------------------------------- the first part of a handshake

  /** What stands between the URL and the user agent's length mark, and what stands behind the user agent. */
  ghost function Behind(r: Response, sep: nat -> string): string {
    PrintAgent(r.agent, sep) + (")" + sep(9))
  }

  /** Without a colon there is no URL. */
  lemma {:induction false} RunColonless(text: string, s: State)
    requires NulFree(text) && ':' !in text && s.phase.Rank() <= 2 && s.hds.url == ""
    ensures IsRefused(Run(text, s), NoUrl)
  {
    hide Step;
    if text != "" {
      ColonlessStep(text, s);
      RunColonless(text[1..], Step(text, s).state);
    }
  }

  lemma ColonlessStep(text: string, s: State)
    requires text != "" && NulFree(text) && ':' !in text && s.phase.Rank() <= 2 && s.hds.url == ""
    ensures Step(text, s).Go? && Step(text, s).rest == text[1..]
    ensures Step(text, s).state.phase.Rank() <= 2 && Step(text, s).state.hds.url == ""
  {
  }

  /** Nor is there one within the capabilities. */
  lemma {:induction false} RunWithinCaps(text: string, s: State)
    requires NulFree(text) && '(' !in text && ')' !in text
    requires s.phase.ProtocolParsed? && s.depth == 2 && s.hds.url == ""
    ensures IsRefused(Run(text, s), NoUrl)
  {
    if text != "" {
      var s' := Step(text, s).state;
      RunWithinCaps(text[1..], s');
    }
  }

  /** The kinds of characters that the parts of a response are made of. */
  predicate Colonless(s: string) {
    NulFree(s) && ':' !in s
  }

  predicate Parenless(s: string) {
    NulFree(s) && '(' !in s && ')' !in s
  }

  lemma SeparatorIs(s: string)
    requires IsSeparator(s)
    ensures Colonless(s) && Parenless(s)
  {
  }

  lemma NumeralIs(n: nat)
    ensures Colonless(Dec(n))
  {
    hide Dec;
    DigitsAreNulFree(Dec(n));
    assert forall i :: 0 <= i < |Dec(n)| ==> IsDigit(Dec(n)[i]);
  }

  lemma ColonlessJoin(a: string, b: string)
    requires Colonless(a) && Colonless(b)
    ensures Colonless(a + b)
  {
  }

  lemma ParenlessJoin(a: string, b: string)
    requires Parenless(a) && Parenless(b)
    ensures Parenless(a + b)
  {
  }

  lemma CutsStay(s: string, n: nat)
    requires n <= |s|
    ensures Colonless(s) ==> Colonless(s[..n])
    ensures Parenless(s) ==> Parenless(s[..n])
  {
  }

  lemma OpeningIsColonless(r: Response, sep: nat -> string)
    requires forall i: nat :: IsSeparator(sep(i))
    ensures Colonless(PrintOpening(r, sep))
  {
    hide Dec, Colonless;
    SeparatorIs(sep(0));
    SeparatorIs(sep(1));
    SeparatorIs(sep(2));
    NumeralIs(r.version);
    ParenIsColonless();
    ColonlessJoin("(", sep(0));
    ColonlessJoin("(" + sep(0), Dec(r.version));
    ColonlessJoin("(" + sep(0) + Dec(r.version), sep(1));
    ColonlessJoin("(" + sep(0) + Dec(r.version) + sep(1), "(");
    ColonlessJoin("(" + sep(0) + Dec(r.version) + sep(1) + "(", sep(2));
  }

  lemma ParenIsColonless()
    ensures Colonless("(") && Colonless(")")
  {
  }

  lemma {:induction false} CapsAreParenless(caps: seq<string>, sep: nat -> string, k: nat)
    requires (forall i :: 0 <= i < |caps| ==> IsCapability(caps[i])) && forall i: nat :: IsSeparator(sep(i))
    ensures Parenless(PrintCaps(caps, sep, k))
  {
    hide Parenless, IsCapability;
    if caps == [] {
      NothingIsParenless();
    } else {
      CapsAreParenless(caps[1..], sep, k + 1);
      CapabilityIs(caps[0]);
      SeparatorIs(sep(k));
      ParenlessJoin(caps[0], sep(k));
      ParenlessJoin(caps[0] + sep(k), PrintCaps(caps[1..], sep, k + 1));
    }
  }

  lemma NothingIsParenless()
    ensures Parenless("")
  {
  }

  lemma CapabilityIs(w: string)
    requires IsCapability(w)
    ensures Parenless(w)
  {
    assert forall i :: 0 <= i < |w| ==> !IsPunctuation(w[i]);
  }

  /** Up to the colon of the URL's length mark there is no URL yet. */
  lemma CutBeforeUrl(r: Response, sep: nat -> string, n: nat)
    requires WellFormed(r) && forall i: nat :: IsSeparator(sep(i))
    requires n <= |PrintHead(r, sep) + Dec(|r.url|)|
    ensures IsRefused(Run((PrintHead(r, sep) + Dec(|r.url|))[..n], Begin(NO_HDS)), NoUrl)
  {
    hide Run, PrintOpening, PrintCaps, Dec, Colonless, Parenless;
    var opening, caps, mark := PrintOpening(r, sep), PrintCaps(r.caps, sep, 10), Dec(|r.url|);
    OpeningIsColonless(r, sep);
    HeadRegrouped(r, sep, mark);
    CutJoin(opening, caps + (")" + (sep(3) + mark)), n);
    if n <= |opening| {
      CutsStay(opening, n);
      ColonlessRefused(opening[..n], Begin(NO_HDS));
    } else {
      var m := n - |opening|;
      CutJoin(caps, ")" + (sep(3) + mark), m);
      RunOpening(r, sep, (caps + (")" + (sep(3) + mark)))[..m]);
      CapsAreParenless(r.caps, sep, 10);
      if m <= |caps| {
        CutsStay(caps, m);
        ParenlessRefused(caps[..m], AtCaps(r));
      } else {
        CutBehindCaps(r, sep, m - |caps|);
      }
    }
  }

  lemma ColonlessRefused(text: string, s: State)
    requires Colonless(text) && s.phase.Rank() <= 2 && s.hds.url == ""
    ensures IsRefused(Run(text, s), NoUrl)
  {
    hide Run;
    RunColonless(text, s);
  }

  lemma ParenlessRefused(text: string, s: State)
    requires Parenless(text) && s.phase.ProtocolParsed? && s.depth == 2 && s.hds.url == ""
    ensures IsRefused(Run(text, s), NoUrl)
  {
    hide Run;
    RunWithinCaps(text, s);
  }

  lemma CutBehindCaps(r: Response, sep: nat -> string, m: nat)
    requires WellFormed(r) && forall i: nat :: IsSeparator(sep(i))
    requires m <= |")" + (sep(3) + Dec(|r.url|))|
    ensures IsRefused(Run(PrintCaps(r.caps, sep, 10) + (")" + (sep(3) + Dec(|r.url|)))[..m], AtCaps(r)), NoUrl)
  {
    hide Run, PrintCaps, Dec, Colonless;
    var tail := ")" + (sep(3) + Dec(|r.url|));
    SeparatorIs(sep(3));
    NumeralIs(|r.url|);
    ParenIsColonless();
    ColonlessJoin(sep(3), Dec(|r.url|));
    ColonlessJoin(")", sep(3) + Dec(|r.url|));
    CutsStay(tail, m);
    RunCaps(r.caps, sep, 10, tail[..m], AtCaps(r));
    ColonlessRefused(tail[..m], AtCaps(r).(hds := AtCaps(r).hds.(capabilities := [] + r.caps)));
  }

  /** Behind that colon: nothing is served before the URL and the character behind it are there. */
  lemma CutInUrl(r: Response, sep: nat -> string, k: nat)
    requires WellFormed(r) && forall i: nat :: IsSeparator(sep(i))
    requires k <= |r.url + (sep(4) + Behind(r, sep))|
    ensures var after := sep(4) + Behind(r, sep);
            var a := Run(PrintHead(r, sep) + (Dec(|r.url|) + (":" + (r.url + after)[..k])), Begin(NO_HDS));
            if k <= |r.url| then IsRefused(a, UrlMarkTooLong)
            else a == Run(after[1..k - |r.url|], Stored(AtUrl(r), r.url, true))
  {
    hide Step, PrintHead, Behind;
    var after := sep(4) + Behind(r, sep);
    var text := Dec(|r.url|) + (":" + (r.url + after)[..k]);
    RunHead(r, sep, text);
    assert IsDigit(text[0]);
    LeavesList(text, AtUrl(r));
    RunCutString(r.url, after, k, AtUrl(r).(phase := CapabilitiesParsed), true);
  }

  /** The states behind the URL. */
  predicate BehindUrl(s: State) {
    s.phase.UrlParsed? && s.depth == 1 && s.tmp == "" && s.hds.url != ""
  }

  lemma CutWithoutAgent(ws: string, sep: string, n: nat, s: State)
    requires (forall i :: 0 <= i < |ws| ==> IsBlank(ws[i])) && IsSeparator(sep) && BehindUrl(s)
    requires n <= |ws + (")" + sep)|
    ensures Run((ws + (")" + sep))[..n], s) == Answer(0, s.hds)
  {
    hide Run;
    RunQuiet((ws + (")" + sep))[..n], s);
  }

  lemma BlanksAndDigits(ws: string, digits: string, n: nat)
    requires (forall i :: 0 <= i < |ws| ==> IsBlank(ws[i])) && AllDigits(digits) && n <= |ws + digits|
    ensures NulFree((ws + digits)[..n]) && ':' !in (ws + digits)[..n]
  {
    DigitsAreNulFree(digits);
    assert forall i :: 0 <= i < |digits| ==> IsDigit(digits[i]);
  }

  lemma Joined(a: string, b: string, c: string)
    ensures a + b + c == a + (b + c)
  {
  }

  lemma CutWithAgent(ws: string, name: string, after: string, n: nat, s: State)
    requires (forall i :: 0 <= i < |ws| ==> IsBlank(ws[i])) && |name| <= LONG_MAX && NulFree(after) && BehindUrl(s)
    requires n <= |ws + Dec(|name|)| + 1 + |name| + |after|
    ensures var front := ws + Dec(|name|);
            var a := Run((front + (":" + (name + after)))[..n], s);
            if n <= |front| then a == Answer(0, s.hds)
            else if n < |front| + |name| + 2 then IsRefused(a, AgentMarkTooLong)
            else a == Answer(0, s.hds.(userAgent := name))
  {
    hide Run, Dec;
    var mark := Dec(|name|);
    CutJoin(ws + mark, ":" + (name + after), n);
    if n <= |ws + mark| {
      BlanksAndDigits(ws, mark, n);
      RunQuiet((ws + mark)[..n], s);
    } else {
      var k := n - |ws + mark| - 1;
      CutColon(name + after, k);
      var text := ":" + (name + after)[..k];
      Joined(ws, mark, text);
      RunBlanks(ws, mark + text, s);
      RunCutString(name, after, k, s, false);
      if k > |name| {
        RunTail(after[1..k - |name|], Stored(s, name, false));
      }
    }
  }

  /** What stands behind the user agent's name. */
  ghost function BehindName(client: Option<string>, sep: nat -> string): string {
    "(" + sep(6) + (if client.Some? then PrintString(client.value, sep(7)) else "") + ")" + sep(8) + (")" + sep(9))
  }

  lemma BehindIs(r: Response, sep: nat -> string)
    requires r.agent.Some?
    ensures var Agent(name, client) := r.agent.value;
            Behind(r, sep) == Dec(|name|) + (":" + (name + (sep(5) + BehindName(client, sep))))
  {
    hide Dec, PrintString;
    var Agent(name, client) := r.agent.value;
    var text := if client.Some? then PrintString(client.value, sep(7)) else "";
    SixJoined(PrintString(name, sep(5)), sep(6), text, sep(8), ")" + sep(9));
    StringIs(name, sep(5), BehindName(client, sep));
  }

  lemma SixJoined(head: string, a: string, b: string, c: string, d: string)
    ensures head + "(" + a + b + ")" + c + d == head + ("(" + a + b + ")" + c + d)
  {
  }

  lemma StringIs(body: string, sep: string, after: string)
    ensures PrintString(body, sep) + after == Dec(|body|) + (":" + (body + (sep + after)))
  {
    hide Dec;
    var mark := Dec(|body|);
    Joined(mark + ":" + body, sep, after);
    Joined(mark + ":", body, sep + after);
    Joined(mark, ":", body + (sep + after));
  }

  lemma BehindIsNulFree(r: Response, sep: nat -> string)
    requires WellFormed(r) && r.agent.Some? && forall i: nat :: IsSeparator(sep(i))
    ensures NulFree(sep(5) + BehindName(r.agent.value.client, sep))
  {
    hide PrintString;
    TailIsNulFree(r.agent.value.client, sep);
    assert IsSeparator(sep(5));
    NulFreeAppend(sep(5), BehindName(r.agent.value.client, sep));
  }

  /** Behind the URL: the user agent is wholly there, or its length mark is not yet complete, or it is refused. */
  lemma CutBehindUrl(r: Response, sep: nat -> string, n: nat, s: State)
    requires WellFormed(r) && (forall i: nat :: IsSeparator(sep(i))) && BehindUrl(s)
    requires IsSeparator(sep(4)) && n <= |sep(4)[1..] + Behind(r, sep)|
    ensures var a := Run((sep(4)[1..] + Behind(r, sep))[..n], s);
            var front := |sep(4)[1..]| + (if r.agent.Some? then |Dec(|r.agent.value.name|)| else 0);
            if r.agent.None? || n <= front then a == Answer(0, s.hds)
            else if n < front + |r.agent.value.name| + 2 then IsRefused(a, AgentMarkTooLong)
            else a == Answer(0, s.hds.(userAgent := r.agent.value.name))
  {
    hide Run;
    var ws := sep(4)[1..];
    assert IsSeparator(sep(4)) && IsSeparator(sep(9));
    if r.agent.None? {
      assert Behind(r, sep) == ")" + sep(9);
      CutWithoutAgent(ws, sep(9), n, s);
    } else {
      hide Behind, Dec;
      var name := r.agent.value.name;
      var after := sep(5) + BehindName(r.agent.value.client, sep);
      BehindIs(r, sep);
      BehindIsNulFree(r, sep);
      Joined(ws, Dec(|name|), ":" + (name + after));
      CutWithAgent(ws, name, after, n, s);
    }
  }

  lemma SkipFirst(a: string, b: string, m: nat)
    requires a != "" && m < |a| + |b|
    ensures (a + b)[1..m + 1] == (a[1..] + b)[..m]
  {
  }

  lemma PrintIs(r: Response, sep: nat -> string)
    ensures Print(r, sep)
         == (PrintHead(r, sep) + Dec(|r.url|)) + (":" + (r.url + (sep(4) + Behind(r, sep))))
  {
    hide PrintHead, PrintAgent, Dec;
  }

  /** A single read that ends after `n` characters of a well-formed response is served if and only if these hold the
      URL with the character behind it and do not end within the user agent's name; a name that is not there yet is
      read as empty. The complaint says how far the reader came. */
  lemma CutHandshake(r: Response, sep: nat -> string, n: nat)
    requires WellFormed(r) && forall i: nat :: IsSeparator(sep(i))
    requires n <= |Print(r, sep)|
    ensures var a := Parse(Print(r, sep)[..n], NO_HDS);
            if Served(r, sep, n) then a == Answer(0, Fields(Cut(r, sep, n)))
            else if n == 0 then a.Answer? && a.code == 1 && a.hds.lastError == EmptyBuffer
            else IsRefused(a, if n < UrlBegin(r, sep) then NoUrl
                              else if n < UrlEnd(r, sep) then UrlMarkTooLong else AgentMarkTooLong)
  {
    hide Run, PrintHead, Behind, Dec;
    var front, after := PrintHead(r, sep) + Dec(|r.url|), sep(4) + Behind(r, sep);
    var text := Print(r, sep);
    assert IsSeparator(sep(4));
    PrintIs(r, sep);
    CutJoin(front, ":" + (r.url + after), n);
    if n == 0 {
      assert text[..n] == "";
    } else if n <= |front| {
      CutBeforeUrl(r, sep, n);
    } else {
      var k := n - |front| - 1;
      CutColon(r.url + after, k);
      Joined(PrintHead(r, sep), Dec(|r.url|), ":" + (r.url + after)[..k]);
      CutInUrl(r, sep, k);
      if k > |r.url| {
        var m := k - |r.url| - 1;
        SkipFirst(sep(4), Behind(r, sep), m);
        CutBehindUrl(r, sep, m, Stored(AtUrl(r), r.url, true));
      }
    }
  }

  /** Every response that names its user agent has a first part that holds the URL and is refused. */
  lemma CutInName(r: Response, sep: nat -> string)
    requires WellFormed(r) && r.agent.Some? && forall i: nat :: IsSeparator(sep(i))
    ensures var n := AgentColon(r, sep) + 1;
            && UrlEnd(r, sep) <= n <= |Print(r, sep)|
            && IsRefused(Parse(Print(r, sep)[..n], NO_HDS), AgentMarkTooLong)
  {
    hide PrintHead, Dec, Parse;
    assert IsSeparator(sep(4));
    CutHandshake(r, sep, AgentColon(r, sep) + 1);
  }

  // ---------------------------------------------------------------- a NUL byte

  /** The state in which the reader comes to the end of `p`, unless it stops before. */
  function EndState(p: string, s: State): Option<State>
    decreases |p|
  {
    if p == "" then Some(s)
    else
      match Step(p, s)
      case Halt(_) => None
      case Go(rest, s') => if |rest| < |p| then EndState(rest, s') else None
  }

  lemma {:induction false} RunsOn(p: string, q: string, s: State)
    requires EndState(p, s).Some?
    ensures Run(p + q, s) == Run(q, EndState(p, s).value)
    decreases |p|
  {
    hide Step;
    if p == "" {
      assert p + q == q;
    } else {
      StepLonger(p, q, s);
      RunsOn(Step(p, s).rest, q, Step(p, s).state);
    }
  }

  lemma HaltComplains(text: string, s: State)
    requires text != "" && Step(text, s).Halt?
    ensures var a := Step(text, s).answer;
            a.Answer? ==> a.code == 2 && a.hds.lastError in {NulByte, UrlMarkTooLong, AgentMarkTooLong}
  {
    hide StrToL;
  }

  lemma {:induction false} ComesToTheEnd(p: string, s: State)
    requires Run(p, s).Answer? && (Run(p, s).code == 0 || Run(p, s).hds.lastError == NoUrl)
    ensures EndState(p, s).Some?
    decreases |p|
  {
    hide Step;
    if p != "" {
      if Step(p, s).Go? {
        StepProgress(p, s);
        ComesToTheEnd(Step(p, s).rest, Step(p, s).state);
      } else {
        HaltComplains(p, s);
      }
    }
  }

  lemma NulHalts(q: string, s: State)
    ensures IsRefused(Run("\0" + q, s), NulByte)
  {
  }

  /** A NUL anywhere but in a counted string refuses the handshake, whatever follows. */
  lemma NulOutsideStrings(r: Response, sep: nat -> string, n: nat, q: string)
    requires WellFormed(r) && forall i: nat :: IsSeparator(sep(i))
    requires n <= |Print(r, sep)| && (n < UrlBegin(r, sep) || Served(r, sep, n))
    ensures IsRefused(Parse(Print(r, sep)[..n] + ("\0" + q), NO_HDS), NulByte)
  {
    hide Run, PrintHead, Dec, Print, EndState;
    var p := Print(r, sep)[..n];
    CutHandshake(r, sep, n);
    if n == 0 {
      assert p + ("\0" + q) == "\0" + q;
      NulHalts(q, Begin(NO_HDS));
    } else {
      ComesToTheEnd(p, Begin(NO_HDS));
      RunsOn(p, "\0" + q, Begin(NO_HDS));
      NulHalts(q, EndState(p, Begin(NO_HDS)).value);
    }
  }
}
