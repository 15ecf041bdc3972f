/** Which error a client of src/SubversionSession.cc is told for which cause, and which backend a session turns to. */
module SessionErrors {
  import opened Wrappers
  import Handshake
  import HandshakeLaws
  import Url
  import opened Router
  import opened Pipeline
  import opened ErrorFrame
  import opened Session
  import opened SessionRuns
  import opened SessionProgress

  /** What is wrong with the bytes of a handshake, if anything: the reader or the URL splitter refuses it, its owner is
      too short or its backend has no address, or that address is none. */
  function HandshakeError(cfg: Config, data: string): Option<(int, Message)> {
    match Handshake.Parse(data, Handshake.NO_HDS)
    case Unspecified => None
    case Answer(code, hds) =>
      var owner := Url.Piece(hds.url, 3);
      if code != 0 then Some((210004, ReaderSays(hds.lastError)))
      else if Url.Piece(hds.url, 1) != "" then Some((210004, ReaderSays(Handshake.NoComplaint)))
      else if |owner| < 2 || BackendOf(cfg, owner).address == "" then Some((200042, NoStorage))
      else if !cfg.isAddress(BackendOf(cfg, owner).address) then Some((200042, BadAddress))
      else None
  }

  function BackendOf(cfg: Config, owner: string): StorageElement
    requires |owner| >= 2
  {
    Chosen(cfg.elements, Code((owner[0], owner[1])), cfg.default)
  }

  /** The error that an event makes the session tell its client. */
  function Told(cfg: Config, e: Event): Option<(int, Message)> {
    match e
    case Receive(ReadHandshake, data) => HandshakeError(cfg, data)
    case Fail(Connect) => Some((200042, Unavailable))
    case Fail(ReadChallenge) => Some((200042, Unavailable))
    case Fail(WriteHandshake) => Some((200042, EchoFailed))
    case _ => None
  }

  lemma RoutingTexts()
    ensures NoStorage.Text() == "Cannot found Storage machine address "
    ensures BadAddress.Text() == "Error upstream Address !"
  {
  }

  lemma RelayTexts()
    ensures Unavailable.Text() == "Storage server is not available"
    ensures EchoFailed.Text() == "Echo handshake to storage failure"
    ensures ReaderSays(Handshake.NoComplaint).Text() == ""
  {
  }

  // ---------------------------------------------------------------- a handshake that is read leaves no complaint

  lemma NoComplaintStep(text: string, s: Handshake.State)
    requires text != ""
    ensures var move := Handshake.Step(text, s);
            && (move.Go? ==> move.state.hds.lastError == s.hds.lastError)
            && (move.Halt? && move.answer.Answer? ==> move.answer.code == 2)
  {
    hide Handshake.StrToL;
  }

  lemma {:induction false} RunLeavesNoComplaint(text: string, s: Handshake.State)
    requires s.hds.lastError == Handshake.NoComplaint
    ensures var a := Handshake.Run(text, s);
            a.Answer? && a.code == 0 ==> a.hds.lastError == Handshake.NoComplaint && a.hds.url != ""
    decreases |text|
  {
    hide Handshake.Step;
    if text != "" {
      NoComplaintStep(text, s);
      if Handshake.Step(text, s).Go? {
        HandshakeLaws.StepProgress(text, s);
        RunLeavesNoComplaint(Handshake.Step(text, s).rest, Handshake.Step(text, s).state);
      }
    }
  }

  lemma ReadLeavesNoComplaint(data: string)
    ensures var a := Handshake.Parse(data, Handshake.NO_HDS);
            a.Answer? && a.code == 0 ==> a.hds.lastError == Handshake.NoComplaint && a.hds.url != ""
  {
    hide Handshake.Run;
    RunLeavesNoComplaint(data, Handshake.Begin(Handshake.NO_HDS));
  }

  lemma OwnerIs(url: string)
    requires Url.Canonical(url, Url.NO_URL).0 == 0
    ensures Url.Canonical(url, Url.NO_URL).1.owner == Url.Piece(url, 3)
  {
    hide Url.Piece, Url.Behind, Url.DefaultPort, Url.Authority;
    assert "" + Url.Piece(url, 3) == Url.Piece(url, 3);
  }

  /** Routing refuses a handshake for these causes, and forwards it to the backend of its owner otherwise. */
  lemma RouteIs(cfg: Config, data: string)
    ensures match Route(data, cfg.elements, cfg.default)
            case Unspecified => Handshake.Parse(data, Handshake.NO_HDS).Unspecified?
            case Refuse(eid, message) => HandshakeError(cfg, data) == Some((eid, message))
            case Forward(node) =>
              var owner := if Handshake.Parse(data, Handshake.NO_HDS).Unspecified? then ""
                           else Url.Piece(Handshake.Parse(data, Handshake.NO_HDS).hds.url, 3);
              && |owner| >= 2 && node == BackendOf(cfg, owner) && node.address != ""
              && HandshakeError(cfg, data) == if cfg.isAddress(node.address) then None else Some((200042, BadAddress))
  {
    hide Handshake.Parse, Url.Canonical, Url.Piece, Chosen, Code;
    var a := Handshake.Parse(data, Handshake.NO_HDS);
    if a.Answer? && a.code == 0 {
      ReadLeavesNoComplaint(data);
      Url.CodesMean(a.hds.url, Url.NO_URL);
      CodeWithin(a.hds.url);
      if Url.Canonical(a.hds.url, Url.NO_URL).0 == 0 {
        OwnerIs(a.hds.url);
      }
    }
  }

  lemma CodeWithin(url: string)
    ensures Url.Canonical(url, Url.NO_URL).0 in {0, 1, 2}
  {
    hide Url.Piece, Url.Behind, Url.DefaultPort, Url.Authority;
  }

  lemma RefusalIs(cfg: Config, s: SessionState, e: Event)
    ensures Refusal(cfg, s, e) == Told(cfg, e)
  {
    hide Route, HandshakeError;
    if e.Receive? {
      RouteIs(cfg, e.data);
      UnspecifiedIsNoError(cfg, e.data);
    }
  }

  lemma UnspecifiedIsNoError(cfg: Config, data: string)
    ensures Handshake.Parse(data, Handshake.NO_HDS).Unspecified? ==> HandshakeError(cfg, data) == None
  {
    hide Handshake.Parse, Url.Piece, Chosen, Code;
  }

  // ---------------------------------------------------------------- over whole runs

  ghost predicate ToldBefore(cfg: Config, es: seq<Event>, j: nat) {
    exists i :: 0 <= i < |es| && i < j && Told(cfg, es[i]).Some?
  }

  lemma ToldNext(cfg: Config, es: seq<Event>, j: nat)
    requires 0 < j <= |es|
    ensures ToldBefore(cfg, es, j) <==> ToldBefore(cfg, es, j - 1) || Told(cfg, es[j - 1]).Some?
  {
    hide Told;
  }

  lemma FrameStep(cfg: Config, w: World, e: Event)
    requires Sized(w.s) && OnePerSide(w) && ErrorIsFinal(w) && Enabled(cfg, w, e)
    ensures var told := Told(cfg, e);
            && Next(cfg, w, e).frame
               == (if told.Some? then Some(Frame(told.value.0, told.value.1.Text())) else w.frame)
            && (told.Some? ==> w.frame.None?)
  {
    hide Frame, Message.Text, SendError, Overwritten, Route, Picked, HandshakeError, Refusal;
    RefusalIs(cfg, w.s, e);
    NextKeepsFrame(cfg, w, e);
    assert OpOf(e) in w.s.pending;
  }

  /** In every run: the client is told an error if and only if one of those causes has occurred, and then it is the
      error of that cause. */
  lemma {:induction false} FrameTellsWhy(cfg: Config, ws: seq<World>, es: seq<Event>, j: nat)
    requires IsRun(cfg, ws, es) && j < |ws|
    ensures ws[j].frame.Some? <==> ToldBefore(cfg, es, j)
    ensures forall i :: 0 <= i < j && Told(cfg, es[i]).Some? ==>
              ws[j].frame == Some(Frame(Told(cfg, es[i]).value.0, Told(cfg, es[i]).value.1.Text()))
  {
    hide Next, Invariant, Told, Frame, Message.Text;
    if j > 0 {
      assert IsStep(cfg, ws[j - 1], es[j - 1], ws[j]);
      FrameTellsWhy(cfg, ws, es, j - 1);
      RunInvariant(cfg, ws, es, j - 1);
      InvariantGives(cfg, ws[j - 1]);
      FrameStep(cfg, ws[j - 1], es[j - 1]);
      ToldNext(cfg, es, j);
    }
  }

  /** A connection is begun only by a handshake that has a backend with an address. */
  lemma ConnectBegins(cfg: Config, w: World, e: Event)
    requires Sized(w.s) && OnePerSide(w) && HandshakeStored(w) && Enabled(cfg, w, e)
    requires Connect in Next(cfg, w, e).s.pending
    ensures var w' := Next(cfg, w, e);
            && e == Receive(ReadHandshake, w'.fromClient)
            && Route(w'.fromClient, cfg.elements, cfg.default) == Forward(w'.s.node)
            && cfg.isAddress(w'.s.node.address)
  {
    hide Frame, Message.Text, Overwritten, Route, Picked, HandshakeError, Refusal;
    SetupOf(cfg, w, e);
    if e.Receive? && e.op.ReadHandshake? {
      assert "" + e.data == e.data;
      StoredFront(w.s.cltBuffer, e.data);
      PickedForward(e.data, cfg.elements, cfg.default, w.s.node);
    }
  }

  lemma StoredFront(buffer: string, data: string)
    requires |data| <= |buffer|
    ensures |Overwritten(buffer, data)| == |buffer| && Overwritten(buffer, data)[..|data|] == data
  {
  }

  lemma SetupOf(cfg: Config, w: World, e: Event)
    requires OnePerSide(w) && Enabled(cfg, w, e)
    ensures OpOf(e) in w.s.pending
    ensures SideOf(OpOf(e)) == Setup ==> w.s.pending == {OpOf(e)}
    ensures SideOf(OpOf(e)) != Setup ==> Connect !in w.s.pending
  {
    if SideOf(OpOf(e)) == Setup {
      SetupAlone(w, OpOf(e));
    } else {
      RelayPending(w, OpOf(e));
    }
  }

  /** In every run: a session that connects does so to the backend of the owner in the handshake that it was sent. */
  lemma ConnectsTo(cfg: Config, ws: seq<World>, es: seq<Event>, j: nat)
    requires IsRun(cfg, ws, es) && j < |ws| && Connect in ws[j].s.pending
    ensures var a, node := Handshake.Parse(ws[j].fromClient, Handshake.NO_HDS), ws[j].s.node;
            && a.Answer? && a.code == 0
            && |Url.Piece(a.hds.url, 3)| >= 2 && node == BackendOf(cfg, Url.Piece(a.hds.url, 3))
            && node.address != "" && cfg.isAddress(node.address)
  {
    hide Next, Invariant, Handshake.Parse, Url.Piece, Chosen, Code, Route;
    assert j > 0;
    assert IsStep(cfg, ws[j - 1], es[j - 1], ws[j]);
    RunInvariant(cfg, ws, es, j - 1);
    InvariantStores(cfg, ws[j - 1]);
    ConnectBegins(cfg, ws[j - 1], es[j - 1]);
    RouteIs(cfg, ws[j].fromClient);
  }

  lemma InvariantStores(cfg: Config, w: World)
    requires Invariant(cfg, w)
    ensures Sized(w.s) && OnePerSide(w) && HandshakeStored(w)
  {
  }
}
