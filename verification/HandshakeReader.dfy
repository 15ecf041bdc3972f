/** The handshake reader in its own form: a loop over a buffer that fills a structure in place. */
module HandshakeReader {
  import opened Handshake

  class SubversionHds {
    var protocol: uint32
    var mCapabilities: seq<string>
    var subversionURL: string
    var userAgent: string
    var lastError: Complaint

    ghost function View(): Hds
      reads this
    {
      Hds(protocol, mCapabilities, subversionURL, userAgent, lastError)
    }

    constructor ()
      ensures View() == NO_HDS
    {
      protocol, mCapabilities, subversionURL, userAgent, lastError := 0, [], "", "", NoComplaint;
    }
  }

  /** The answer of the reader as a code and the structure left behind. */
  ghost predicate Agrees(answer: Answer, code: int, hds: Hds) {
    answer.Answer? ==> code == answer.code && hds == answer.hds
  }

  /** A length mark and the string it announces, with `p` on the colon. */
  method TakeString(text: seq<char>, p: nat, mark: string, hds: SubversionHds, isUrl: bool)
    returns (stop: bool, code: int, next: nat)
    requires p < |text|
    modifies hds
    ensures forall s: State :: s.hds == old(hds.View()) ==>
              match Announced(text[p..], mark, s, isUrl)
              case Halt(answer) => stop && Agrees(answer, code, hds.View())
              case Go(rest, s') => !stop && p < next <= |text| && rest == text[next..] && hds.View() == s'.hds
  {
    var l := StrToL(mark);
    stop, code, next := true, 2, p;
    if l < 0 || l > LONG_MAX {
      // The source computes with a pointer outside the buffer here.
      return;
    }
    if p + l + 1 >= |text| {
      hds.lastError := if isUrl then UrlMarkTooLong else AgentMarkTooLong;
      return;
    }
    if isUrl {
      hds.subversionURL := text[p + 1..p + 1 + l];
    } else {
      hds.userAgent := text[p + 1..p + 1 + l];
    }
    assert text[p..][1..1 + l] == text[p + 1..p + 1 + l];
    stop, next := false, p + l + 2;
  }

  /** One turn of the loop at `p`. */
  method Turn(text: seq<char>, p: nat, phase0: Phase, depth0: uint32, tmp0: string, hds: SubversionHds)
    returns (stop: bool, code: int, next: nat, phase: Phase, depth: uint32, tmp: string)
    requires p < |text|
    modifies hds
    ensures match Step(text[p..], State(phase0, depth0, tmp0, old(hds.View())))
            case Halt(answer) => stop && Agrees(answer, code, hds.View())
            case Go(rest, s) =>
              !stop && p < next <= |text| && rest == text[next..] && s == State(phase, depth, tmp, hds.View())
  {
    var c := text[p];
    stop, code, next, phase, depth, tmp := false, 0, p + 1, phase0, depth0, tmp0;
    match c
    case '(' =>
      depth := Up(depth);
    case ')' =>
      depth := Down(depth);
    case ' ' | '\n' =>
      if phase == ProtocolParsed && tmp != "" {
        hds.mCapabilities := hds.mCapabilities + [tmp];
        tmp := "";
      }
    case '\0' =>
      hds.lastError := NulByte;
      stop, code := true, 2;
    case _ =>
      if phase == Start {
        if depth == 1 {
          hds.protocol := Minus(c, '0');
          phase := ProtocolParsed;
        }
      } else if phase == ProtocolParsed && depth == 2 {
        tmp := tmp + [c];
      } else if phase == ProtocolParsed || phase == CapabilitiesParsed {
        if phase == ProtocolParsed {
          tmp := "";
          phase := CapabilitiesParsed;
        }
        if c != ':' {
          tmp := tmp + [c];
        } else {
          stop, code, next := TakeString(text, p, tmp, hds, true);
          if !stop {
            tmp, phase := "", UrlParsed;
          }
        }
      } else if phase == UrlParsed {
        if depth != 1 {
          phase := AgentParsed;
        }
        if c != ':' {
          tmp := tmp + [c];
        } else {
          stop, code, next := TakeString(text, p, tmp, hds, false);
          if !stop {
            tmp, phase := "", AgentParsed;
          }
        }
      }
  }

  method ParseSubversionHds(buffer: array<char>, nbytes: nat, hds: SubversionHds) returns (code: int)
    requires nbytes <= buffer.Length
    modifies hds
    ensures Agrees(Parse(buffer[..nbytes], old(hds.View())), code, hds.View())
  {
    if nbytes == 0 {
      hds.lastError := EmptyBuffer;
      return 1;
    }
    var text := buffer[..nbytes];
    var p, phase, depth, tmp := 0, Start, 0, "";
    ghost var goal := Run(text, Begin(hds.View()));
    assert text[0..] == text;
    while p < nbytes
      invariant p <= nbytes
      invariant Run(text[p..], State(phase, depth, tmp, hds.View())) == goal
    {
      var stop;
      stop, code, p, phase, depth, tmp := Turn(text, p, phase, depth, tmp, hds);
      if stop {
        return;
      }
    }
    if hds.subversionURL == "" {
      hds.lastError := NoUrl;
      return 2;
    }
    return 0;
  }
}
