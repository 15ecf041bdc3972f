/** What the handshake reader of src/SubversionHds.cc makes of responses that its grammar does not foresee. */
module HandshakeLimits {
  import opened Wrappers
  import opened Decimal
  import opened Handshake
  import opened HandshakeLaws

  // ---------------------------------------------------------------- the version

  /** Once it is stored the protocol version stays. */
  lemma {:induction false} ProtocolStays(text: string, s: State)
    requires !s.phase.Start?
    ensures var a := Run(text, s); a.Answer? ==> a.hds.protocol == s.hds.protocol
    decreases |text|
  {
    hide Step;
    if text != "" {
      ProtocolStep(text, s);
      if Step(text, s).Go? {
        StepProgress(text, s);
        ProtocolStays(Step(text, s).rest, Step(text, s).state);
      }
    }
  }

  lemma ProtocolStep(text: string, s: State)
    requires text != "" && !s.phase.Start?
    ensures match Step(text, s)
            case Go(_, s') => !s'.phase.Start? && s'.hds.protocol == s.hds.protocol
            case Halt(a) => a.Answer? ==> a.hds.protocol == s.hds.protocol
  {
    hide StrToL;
  }

  lemma FirstDigitOnly(d: string, rest: string, s: State)
    requires d != "" && IsDigit(d[0]) && s.phase.Start? && s.depth == 1
    ensures Run(d + rest, s)
         == Run(d[1..] + rest, s.(phase := ProtocolParsed, hds := s.hds.(protocol := DigitValue(d[0]))))
  {
    assert (d + rest)[1..] == d[1..] + rest;
  }

  /** Only the first digit of the version is read. */
  lemma VersionIsDigit(r: Response, sep: nat -> string)
    requires forall i: nat :: IsSeparator(sep(i))
    ensures var a := Parse(Print(r, sep), NO_HDS); a.Answer? ==> a.hds.protocol < 10
  {
    hide Step, Dec;
    var d := Dec(r.version);
    var more := sep(1) + "(" + sep(2) + PrintCaps(r.caps, sep, 10) + ")" + sep(3)
                + (PrintString(r.url, sep(4)) + (PrintAgent(r.agent, sep) + (")" + sep(9))));
    FromVersion(r, sep, more);
    var s := Begin(NO_HDS);
    RunOpen(sep(0) + (d + more), s);
    RunBlanks(sep(0), d + more, s.(depth := 1));
    assert IsDigit(d[0]);
    FirstDigitOnly(d, more, s.(depth := 1));
    ProtocolStays(d[1..] + more, State(ProtocolParsed, 1, "", NO_HDS.(protocol := DigitValue(d[0]))));
  }

  lemma FromVersion(r: Response, sep: nat -> string, more: string)
    requires more == sep(1) + "(" + sep(2) + PrintCaps(r.caps, sep, 10) + ")" + sep(3)
                     + (PrintString(r.url, sep(4)) + (PrintAgent(r.agent, sep) + (")" + sep(9))))
    ensures Print(r, sep) == "(" + (sep(0) + (Dec(r.version) + more))
  {
    hide Dec, PrintCaps, PrintString, PrintAgent;
    PrintRegrouped(r, sep);
    var tail := PrintString(r.url, sep(4)) + (PrintAgent(r.agent, sep) + (")" + sep(9)));
    VersionRegrouped("(", sep(0), Dec(r.version), sep(1), "(", sep(2), PrintCaps(r.caps, sep, 10), ")", sep(3), tail);
  }

  lemma VersionRegrouped(a: string, b: string, c: string, d: string, e: string, f: string, g: string, h: string,
                         i: string, tail: string)
    ensures a + b + c + d + e + f + g + h + i + tail == a + (b + (c + (d + e + f + g + h + i + tail)))
  {
  }

  /** A response that is otherwise well formed is read as its fields if and only if its version has one digit. */
  lemma OneDigitVersion(r: Response, sep: nat -> string)
    requires WellFormed(r.(version := 2)) && forall i: nat :: IsSeparator(sep(i))
    ensures Parse(Print(r, sep), NO_HDS) == Answer(0, Fields(r)) <==> r.version < 10
  {
    hide Parse, Print;
    if r.version < 10 {
      ParsePrint(r, sep);
    } else {
      VersionIsDigit(r, sep);
    }
  }

  // ---------------------------------------------------------------- what is passed over

  /** Characters that are neither punctuation nor white space. */
  predicate IsWord(w: string) {
    forall i :: 0 <= i < |w| ==> w[i] !in {'(', ')', ' ', '\n', '\0'}
  }

  /** Before the version only what stands at depth one counts. */
  lemma {:induction false} BeforeVersion(w: string, rest: string, s: State)
    requires IsWord(w) && s.phase.Start? && s.depth != 1
    ensures Run(w + rest, s) == Run(rest, s)
  {
    if w == "" {
      assert w + rest == rest;
    } else {
      assert (w + rest)[1..] == w[1..] + rest;
      BeforeVersion(w[1..], rest, s);
    }
  }

  /** So words before the opening parenthesis are passed over. */
  lemma WordsBefore(w: string, text: string)
    requires IsWord(w) && text != ""
    ensures Parse(w + text, NO_HDS) == Parse(text, NO_HDS)
  {
    hide Run;
    BeforeVersion(w, text, Begin(NO_HDS));
  }

  /** Behind the URL a length mark counts at depth one only: a word in deeper parentheses ends the reading of strings,
      and what follows is passed over. */
  lemma DeeperWord(c: char, rest: string, s: State)
    requires s.phase.UrlParsed? && s.depth != 1 && s.hds.url != "" && c != ':'
    requires c !in {'(', ')', ' ', '\n', '\0'} && NulFree(rest)
    ensures Run([c] + rest, s) == Answer(0, s.hds)
  {
    assert ([c] + rest)[1..] == rest;
    RunTail(rest, s.(phase := AgentParsed, tmp := s.tmp + [c]));
  }

  /** A response that has a list of words where its user agent should be is accepted without a user agent. */
  lemma WordsForAgent(r: Response, sep: nat -> string, w: string, rest: string)
    requires WellFormed(r) && forall i: nat :: IsSeparator(sep(i))
    requires w != "" && IsWord(w) && w[0] != ':' && NulFree(rest)
    ensures Parse(PrintHead(r, sep) + (PrintString(r.url, sep(4)) + ("(" + (w + rest))), NO_HDS)
         == Answer(0, Fields(r.(agent := None)))
  {
    hide Step, PrintHead, PrintString;
    var tail := "(" + (w + rest);
    RunHead(r, sep, PrintString(r.url, sep(4)) + tail);
    RunUrl(r.url, sep(4), tail, AtUrl(r));
    var s := Stored(AtUrl(r), r.url, true);
    RunOpen(w + rest, s);
    assert w + rest == [w[0]] + (w[1..] + rest);
    WordIsNulFree(w, rest);
    DeeperWord(w[0], w[1..] + rest, s.(depth := 2));
  }

  lemma WordIsNulFree(w: string, rest: string)
    requires w != "" && IsWord(w) && NulFree(rest)
    ensures NulFree(w[1..] + rest)
  {
  }
}
