/** From a client's handshake to the backend that serves it. */
module Pipeline {
  import opened Wrappers
  import Handshake
  import HandshakeLaws
  import HandshakeCuts
  import Url
  import opened Router

  const NO_STORAGE := "Cannot found Storage machine" + " address "
  const BAD_ADDRESS := "Error upstream Address !"
  const UNAVAILABLE := "Storage server is not available"
  const ECHO_FAILED := "Echo handshake to storage" + " failure"

  /** The texts of the error frames. */
  datatype Message = ReaderSays(complaint: Handshake.Complaint) | NoStorage | BadAddress | Unavailable | EchoFailed {
    function Text(): (s: string)
      ensures |s| < 100
    {
      match this
      case ReaderSays(c) => c.Message()
      case NoStorage => NO_STORAGE
      case BadAddress => BAD_ADDRESS
      case Unavailable => UNAVAILABLE
      case EchoFailed => ECHO_FAILED
    }
  }

  lemma PartsAreNulFree()
    ensures '\0' !in Handshake.MALFORMED && '\0' !in Handshake.MARK_TOO_LONG
  {
  }

  lemma OtherPartsAreNulFree()
    ensures '\0' !in Handshake.PARSE_FAILED && '\0' !in Handshake.NO_URL_FOUND
  {
  }

  lemma ComplaintIsNulFree(c: Handshake.Complaint)
    ensures '\0' !in c.Message()
  {
    hide Handshake.MALFORMED, Handshake.MARK_TOO_LONG, Handshake.PARSE_FAILED, Handshake.NO_URL_FOUND;
    PartsAreNulFree();
    OtherPartsAreNulFree();
  }

  lemma RoutingTextsAreNulFree()
    ensures '\0' !in NO_STORAGE && '\0' !in BAD_ADDRESS
  {
  }

  lemma RelayTextsAreNulFree()
    ensures '\0' !in UNAVAILABLE && '\0' !in ECHO_FAILED
  {
  }

  /** No text ends early. */
  lemma TextIsNulFree(m: Message)
    ensures '\0' !in m.Text()
  {
    hide Handshake.Complaint.Message, NO_STORAGE, BAD_ADDRESS, UNAVAILABLE, ECHO_FAILED;
    RoutingTextsAreNulFree();
    RelayTextsAreNulFree();
    if m.ReaderSays? {
      ComplaintIsNulFree(m.complaint);
    }
  }

  const PARSE_ERROR := 210004
  const STORAGE_ERROR := 200042

  datatype Verdict = Refuse(eid: int, message: Message) | Forward(node: StorageElement) | Unspecified

  /** What the session decides about the bytes of a handshake. */
  function Route(text: string, es: seq<HostElement>, default: StorageElement): Verdict {
    match Handshake.Parse(text, Handshake.NO_HDS)
    case Unspecified => Unspecified
    case Answer(code, hds) =>
      if code != 0 then Refuse(PARSE_ERROR, ReaderSays(hds.lastError))
      else
        var (split, u) := Url.Canonical(hds.url, Url.NO_URL);
        if split != 0 then Refuse(PARSE_ERROR, ReaderSays(hds.lastError))
        else
          var node := ChosenFor(u.owner, es, default);
          if node.None? || node.value.address == "" then Refuse(STORAGE_ERROR, NoStorage)
          else Forward(node.value)
  }

  /** The backend that the session has stored by then, where it had stored `node` before: the routing table's choice,
      whether or not it has an address. */
  function Picked(text: string, es: seq<HostElement>, default: StorageElement, node: StorageElement): StorageElement {
    match Handshake.Parse(text, Handshake.NO_HDS)
    case Unspecified => node
    case Answer(code, hds) =>
      var (split, u) := Url.Canonical(hds.url, Url.NO_URL);
      var choice := ChosenFor(u.owner, es, default);
      if code != 0 || split != 0 || choice.None? then node else choice.value
  }

  /** The session connects to the backend that it has stored. */
  lemma PickedForward(text: string, es: seq<HostElement>, default: StorageElement, node: StorageElement)
    ensures Route(text, es, default).Forward? ==> Picked(text, es, default, node) == Route(text, es, default).node
  {
    hide Handshake.Parse, Url.Canonical, ChosenFor;
  }

  function Settled(node: StorageElement): Verdict {
    if node.address == "" then Refuse(STORAGE_ERROR, NoStorage) else Forward(node)
  }

  /** The owner that a URL names. */
  function OwnerOf(url: string): string {
    Url.Piece(url, 3)
  }

  /** The backend of a well-formed handshake is the first enabled entry that covers the owner's first two
      characters, or else the default; nothing else in the handshake matters. */
  lemma BackendOfHandshake(r: HandshakeLaws.Response, sep: nat -> string, lines: seq<Line>, default: StorageElement)
    requires HandshakeLaws.WellFormed(r) && forall i: nat :: HandshakeLaws.IsSeparator(sep(i))
    requires Url.Piece(r.url, 1) == ""
    requires var owner := OwnerOf(r.url); |owner| >= 2 && IsAscii(owner[0]) && IsAscii(owner[1])
    requires forall line <- lines :: IsLine(line)
    ensures var owner := OwnerOf(r.url);
            Route(HandshakeLaws.Print(r, sep), Elements(RowsOf(lines)), default)
              == Settled(ChosenByName(lines, (owner[0], owner[1]), default))
  {
    hide Elements, RowsOf, Chosen, ChosenByName, Url.Piece, Handshake.Parse, HandshakeLaws.Print, Code;
    HandshakeLaws.ParsePrint(r, sep);
    var owner := OwnerOf(r.url);
    assert "" + owner == owner;
    ChoiceByName(lines, (owner[0], owner[1]), default);
  }

  /** Handshakes whose owners begin alike are served by the same backend. */
  lemma SameOwnersSameBackend(r: HandshakeLaws.Response, r': HandshakeLaws.Response,
                              sep: nat -> string, sep': nat -> string,
                              lines: seq<Line>, default: StorageElement)
    requires HandshakeLaws.WellFormed(r) && forall i: nat :: HandshakeLaws.IsSeparator(sep(i))
    requires HandshakeLaws.WellFormed(r') && forall i: nat :: HandshakeLaws.IsSeparator(sep'(i))
    requires Url.Piece(r.url, 1) == "" && Url.Piece(r'.url, 1) == ""
    requires |OwnerOf(r.url)| >= 2 && |OwnerOf(r'.url)| >= 2 && OwnerOf(r.url)[..2] == OwnerOf(r'.url)[..2]
    requires IsAscii(OwnerOf(r.url)[0]) && IsAscii(OwnerOf(r.url)[1])
    requires forall line <- lines :: IsLine(line)
    ensures Route(HandshakeLaws.Print(r, sep), Elements(RowsOf(lines)), default)
         == Route(HandshakeLaws.Print(r', sep'), Elements(RowsOf(lines)), default)
  {
    hide Route, HandshakeLaws.Print, Elements, RowsOf, OwnerOf;
    var o, o' := OwnerOf(r.url), OwnerOf(r'.url);
    assert o[0] == o[..2][0] == o'[..2][0] == o'[0];
    assert o[1] == o[..2][1] == o'[..2][1] == o'[1];
    BackendOfHandshake(r, sep, lines, default);
    BackendOfHandshake(r', sep', lines, default);
  }

  /** Any first part of a handshake that is served is served by the backend of the whole. */
  lemma CutSameBackend(r: HandshakeLaws.Response, sep: nat -> string, n: nat,
                       es: seq<HostElement>, default: StorageElement)
    requires HandshakeLaws.WellFormed(r) && forall i: nat :: HandshakeLaws.IsSeparator(sep(i))
    requires n <= |HandshakeLaws.Print(r, sep)| && HandshakeCuts.Served(r, sep, n)
    ensures Route(HandshakeLaws.Print(r, sep)[..n], es, default) == Route(HandshakeLaws.Print(r, sep), es, default)
  {
    hide HandshakeLaws.Print, Handshake.Parse, Url.Canonical, ChosenFor, HandshakeCuts.Served;
    HandshakeCuts.CutHandshake(r, sep, n);
    HandshakeLaws.ParsePrint(r, sep);
  }

  /** A handshake whose owner has fewer than two characters has no backend, whatever the routing table says. */
  lemma ShortOwner(r: HandshakeLaws.Response, sep: nat -> string, es: seq<HostElement>, default: StorageElement)
    requires HandshakeLaws.WellFormed(r) && forall i: nat :: HandshakeLaws.IsSeparator(sep(i))
    requires Url.Piece(r.url, 1) == "" && |OwnerOf(r.url)| < 2
    ensures Route(HandshakeLaws.Print(r, sep), es, default) == Refuse(STORAGE_ERROR, NoStorage)
  {
    hide Chosen, Url.Piece, Handshake.Parse, HandshakeLaws.Print, Code;
    HandshakeLaws.ParsePrint(r, sep);
    var owner := OwnerOf(r.url);
    assert "" + owner == owner;
  }

  /** Something between the first two slashes of the URL is refused before any routing. */
  lemma MisplacedSlash(r: HandshakeLaws.Response, sep: nat -> string, es: seq<HostElement>, default: StorageElement)
    requires HandshakeLaws.WellFormed(r) && forall i: nat :: HandshakeLaws.IsSeparator(sep(i))
    requires Url.Piece(r.url, 1) != ""
    ensures Route(HandshakeLaws.Print(r, sep), es, default) == Refuse(PARSE_ERROR, ReaderSays(Handshake.NoComplaint))
  {
    hide Chosen, Url.Piece, Handshake.Parse, HandshakeLaws.Print, Code;
    HandshakeLaws.ParsePrint(r, sep);
  }
}
