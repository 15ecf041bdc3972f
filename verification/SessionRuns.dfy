/** What holds in every run of a session, whatever the environment does. */
module SessionRuns {
  import opened Wrappers
  import opened Router
  import opened Pipeline
  import opened ErrorFrame
  import opened Session

  /** A run: worlds connected by enabled events. */
  ghost predicate IsRun(cfg: Config, ws: seq<World>, es: seq<Event>) {
    && |ws| == |es| + 1 && Initial(ws[0])
    && forall i :: 0 <= i < |es| ==> IsStep(cfg, ws[i], es[i], ws[i + 1])
  }

  ghost predicate IsStep(cfg: Config, w: World, e: Event, w': World) {
    Sized(w.s) && Enabled(cfg, w, e) && w' == Next(cfg, w, e)
  }

  // ---------------------------------------------------------------- the invariant

  /** At most one operation is pending before the relay, and at most one per direction during it; none has ever
      been issued into the midst of another. */
  ghost predicate OnePerSide(w: World) {
    && !w.s.crowded
    && (forall a <- w.s.pending, b <- w.s.pending :: SideOf(a) == SideOf(b) ==> a == b)
    && (forall a <- w.s.pending :: SideOf(a) == Setup <==> !w.relay)
  }

  /** Once an error has been reported only its frame may still be on its way. */
  ghost predicate ErrorIsFinal(w: World) {
    && (w.frame.Some? ==> !w.relay && forall op <- w.s.pending :: op == WriteError(|w.frame.value|))
    && (forall op <- w.s.pending :: op.WriteError? ==> w.frame.Some? && op.n == |w.frame.value|)
  }

  /** The handshake has been read and is still to be sent. */
  predicate HoldsHandshake(op: Op) {
    op.Connect? || op.ReadChallenge? || op.WriteHandshake?
  }

  /** The handshake bytes wait in the client buffer until they are sent. */
  ghost predicate HandshakeStored(w: World) {
    && (!w.relay ==> w.toBackend == "")
    && w.s.handshakeSize <= |w.s.cltBuffer|
    && (forall op <- w.s.pending :: op.WriteGreeting? || op.ReadHandshake? ==> w.fromClient == "")
    && (forall op <- w.s.pending :: HoldsHandshake(op) ==>
          w.s.handshakeSize == |w.fromClient| && w.s.cltBuffer[..w.s.handshakeSize] == w.fromClient)
    && (forall op <- w.s.pending :: op.WriteGreeting? || op.ReadHandshake? || op.Connect? || op.ReadChallenge? ==>
          w.fromBackend == "")
    && (forall op <- w.s.pending :: op.WriteHandshake? ==> |w.fromBackend| == w.challenge)
  }

  /** What the client has been sent behind the greeting. */
  function BehindGreeting(w: World): string {
    if w.greeted <= |w.toClient| then w.toClient[w.greeted..] else ""
  }

  /** Backend bytes that have been read but have not been sent to the client. */
  ghost predicate DownRest(w: World, rest: string) {
    && (forall op <- w.s.pending :: op.WriteClient? ==>
          op.sent <= op.n <= |w.s.buffer| && rest == w.s.buffer[op.sent..op.n])
    && (ReadBackend in w.s.pending ==> rest == "")
    && (forall op <- w.s.pending :: SideOf(op) == Down ==> w.lostDown == "")
    && ((forall op <- w.s.pending :: SideOf(op) != Down) ==> rest == w.lostDown)
  }

  /** Client bytes that have been read but have not been sent to the backend. */
  ghost predicate UpRest(w: World, rest: string) {
    && (forall op <- w.s.pending :: op.WriteBackend? ==>
          op.sent <= op.n <= |w.s.cltBuffer| && rest == w.s.cltBuffer[op.sent..op.n])
    && (ReadClient in w.s.pending || IssueClientRead in w.s.pending ==> rest == "")
    && (forall op <- w.s.pending :: SideOf(op) == Up ==> w.lostUp == "")
    && ((forall op <- w.s.pending :: SideOf(op) != Up) ==> rest == w.lostUp)
  }

  /** The client receives the greeting (or its first bytes), then an error frame or relayed bytes. */
  ghost predicate ClientStream(cfg: Config, w: World) {
    && w.greeted <= |cfg.greeting| && w.greeted <= |w.toClient|
    && w.toClient[..w.greeted] == cfg.greeting[..w.greeted]
    && (WriteGreeting in w.s.pending ==> w.greeted == 0)
    && (w.frame.None? && !w.relay ==> BehindGreeting(w) == "")
    && (w.frame.Some? ==> BehindGreeting(w) <= w.frame.value)
    && (forall op <- w.s.pending :: op.WriteError? ==>
          w.frame.Some? && |w.frame.value| <= |w.s.buffer| && w.s.buffer[..|w.frame.value|] == w.frame.value
          && BehindGreeting(w) == "")
    && (!w.relay ==> w.lostDown == "" && w.lostUp == "")
  }

  /** Nothing is lost, added or reordered on the way from the backend to the client. */
  ghost predicate DownConserved(w: World) {
    w.relay ==>
      && w.challenge <= |w.fromBackend|
      && exists rest :: DownRest(w, rest) && BehindGreeting(w) + rest == w.fromBackend[w.challenge..]
  }

  /** What the backend ought to get, given how much of the handshake was really written. */
  function Forwarded(w: World): string {
    if w.handshakeSent <= w.s.handshakeSize <= |w.fromClient| then
      w.fromClient[..w.handshakeSent] + w.fromClient[w.s.handshakeSize..]
    else ""
  }

  ghost predicate UpConserved(w: World) {
    w.relay ==>
      && w.handshakeSent <= w.s.handshakeSize <= |w.fromClient|
      && exists rest :: UpRest(w, rest) && w.toBackend + rest == Forwarded(w)
  }

  ghost predicate Invariant(cfg: Config, w: World) {
    && Sized(w.s)
    && OnePerSide(w)
    && ErrorIsFinal(w)
    && HandshakeStored(w)
    && ClientStream(cfg, w)
    && DownConserved(w)
    && UpConserved(w)
  }

  lemma InitialInvariant(cfg: Config, w: World)
    requires Initial(w)
    ensures Invariant(cfg, w)
  {
  }

  // ---------------------------------------------------------------- the error frame

  /** The two identifiers that the session reports errors with. */
  predicate IsOwnId(eid: int) {
    eid == PARSE_ERROR || eid == STORAGE_ERROR
  }

  lemma RouteIds(text: string, es: seq<HostElement>, default: StorageElement)
    ensures Route(text, es, default).Refuse? ==> IsOwnId(Route(text, es, default).eid)
  {
  }

  /** Issuing a frame touches only the buffer that no other operation is using. */
  lemma SendErrorFacts(s: SessionState, eid: int, message: Message)
    requires Sized(s) && IsInt32(eid)
    ensures var frame, s' := Frame(eid, message.Text()), SendError(s, eid, message);
            && Sized(s') && |frame| <= BUFFER_SIZE
            && s' == s.(pending := s.pending + {WriteError(|frame|)}, crowded := s'.crowded, buffer := s'.buffer)
            && (s.pending == {} ==> s'.crowded == s.crowded)
            && s'.buffer[..|frame|] == frame
  {
    hide Frame, Message.Text;
    FrameFits(eid, message.Text());
    var frame := Frame(eid, message.Text());
    var data := frame + "\0";
    assert Overwritten(s.buffer, data)[..|frame|] == Overwritten(s.buffer, data)[..|data|][..|frame|];
  }

  // ---------------------------------------------------------------- steps before the relay

  lemma SetupAlone(w: World, op: Op)
    requires OnePerSide(w) && op in w.s.pending && SideOf(op) == Setup
    ensures !w.relay && w.s.pending == {op}
  {
    assert forall a <- w.s.pending :: SideOf(a) == Setup && a == op;
  }

  /** A world whose session has nothing pending any more. */
  lemma Quiet(cfg: Config, w: World, op: Op, w': World)
    requires Invariant(cfg, w) && op in w.s.pending && SideOf(op) == Setup && !op.WriteError?
    requires w' == w.(s := w.s.(pending := {}, handshakeSize := w'.s.handshakeSize, cltBuffer := w'.s.cltBuffer,
                                node := w'.s.node),
                      fromClient := w'.fromClient)
    requires |w'.s.cltBuffer| == BUFFER_SIZE && w'.s.handshakeSize <= BUFFER_SIZE
    ensures Invariant(cfg, w')
  {
    SetupAlone(w, op);
  }

  /** Reporting an error instead of going on. */
  lemma Refused(cfg: Config, w: World, op: Op, w': World, eid: int, message: Message)
    requires Invariant(cfg, w) && op in w.s.pending && SideOf(op) == Setup && !op.WriteError? && IsInt32(eid)
    requires Sized(w'.s.(pending := {})) && w'.s.crowded == w.s.crowded
    requires w'.s == SendError(w'.s.(pending := {}, buffer := w.s.buffer), eid, message)
    requires w' == w.(s := w'.s, fromClient := w'.fromClient, frame := Some(Frame(eid, message.Text())))
    ensures Invariant(cfg, w')
  {
    hide SendError, Frame, Message.Text;
    SetupAlone(w, op);
    var s := w'.s.(pending := {}, buffer := w.s.buffer);
    SendErrorFacts(s, eid, message);
    var frame := Frame(eid, message.Text());
    assert w'.s.pending == {WriteError(|frame|)};
  }

  lemma GreetingStep(cfg: Config, w: World, k: nat)
    requires Invariant(cfg, w) && Enabled(cfg, w, Transfer(WriteGreeting, k))
    ensures Invariant(cfg, Next(cfg, w, Transfer(WriteGreeting, k)))
  {
    SetupAlone(w, WriteGreeting);
    var w' := Next(cfg, w, Transfer(WriteGreeting, k));
    assert w'.s.pending == {ReadHandshake};
    assert w.toClient == "" by { assert w.toClient[0..] == w.toClient; }
    assert w'.toClient == cfg.greeting[..k];
  }

  lemma HandshakeStep(cfg: Config, w: World, data: string)
    requires Invariant(cfg, w) && Enabled(cfg, w, Receive(ReadHandshake, data))
    ensures Invariant(cfg, Next(cfg, w, Receive(ReadHandshake, data)))
  {
    hide Route, Picked, SendError, Frame, Message.Text;
    SetupAlone(w, ReadHandshake);
    var e := Receive(ReadHandshake, data);
    var w' := Next(cfg, w, e);
    var clt := Overwritten(w.s.cltBuffer, data);
    assert w.fromClient + data == data;
    var s := w.s.(pending := {}, cltBuffer := clt, handshakeSize := |data|,
                  node := Picked(data, cfg.elements, cfg.default, w.s.node));
    assert Completed(w.s, ReadHandshake).pending == {};
    RouteIds(data, cfg.elements, cfg.default);
    match Route(data, cfg.elements, cfg.default)
    case Unspecified =>
      Quiet(cfg, w, ReadHandshake, w');
    case Refuse(eid, message) =>
      assert w'.s == SendError(s, eid, message);
      SendErrorFacts(s, eid, message);
      assert s == w'.s.(pending := {}, buffer := w.s.buffer);
      Refused(cfg, w, ReadHandshake, w', eid, message);
    case Forward(node) =>
      if cfg.isAddress(node.address) {
        assert w'.s.pending == {Connect};
      } else {
        SendErrorFacts(s, STORAGE_ERROR, BadAddress);
        assert s == w'.s.(pending := {}, buffer := w.s.buffer);
        Refused(cfg, w, ReadHandshake, w', STORAGE_ERROR, BadAddress);
      }
  }

  lemma ConnectedStep(cfg: Config, w: World)
    requires Invariant(cfg, w) && Enabled(cfg, w, Connected)
    ensures Invariant(cfg, Next(cfg, w, Connected))
  {
    SetupAlone(w, Connect);
    assert Next(cfg, w, Connected).s.pending == {ReadChallenge};
  }

  lemma ChallengeStep(cfg: Config, w: World, data: string)
    requires Invariant(cfg, w) && Enabled(cfg, w, Receive(ReadChallenge, data))
    ensures Invariant(cfg, Next(cfg, w, Receive(ReadChallenge, data)))
  {
    hide Route, Picked, Frame;
    SetupAlone(w, ReadChallenge);
    assert Next(cfg, w, Receive(ReadChallenge, data)).s.pending == {WriteHandshake};
  }

  /** The handshake is forwarded and the relay begins. */
  lemma ForwardStep(cfg: Config, w: World, k: nat)
    requires Invariant(cfg, w) && Enabled(cfg, w, Transfer(WriteHandshake, k))
    ensures Invariant(cfg, Next(cfg, w, Transfer(WriteHandshake, k)))
  {
    hide Route, Picked, Frame;
    SetupAlone(w, WriteHandshake);
    var w' := Next(cfg, w, Transfer(WriteHandshake, k));
    assert w'.s.pending == {ReadBackend, IssueClientRead};
    assert DownRest(w', "") && BehindGreeting(w') + "" == w'.fromBackend[w'.challenge..];
    assert UpRest(w', "");
    assert w'.toBackend + "" == w.s.cltBuffer[..k] == w.fromClient[..k];
    assert Forwarded(w') == w.fromClient[..k] + "";
  }

  lemma SetupFailure(cfg: Config, w: World, op: Op)
    requires Invariant(cfg, w) && Enabled(cfg, w, Fail(op)) && SideOf(op) == Setup
    ensures Invariant(cfg, Next(cfg, w, Fail(op)))
  {
    hide SendError, Frame, Message.Text;
    SetupAlone(w, op);
    var w' := Next(cfg, w, Fail(op));
    var s := Completed(w.s, op);
    assert s.pending == {};
    if op.Connect? || op.ReadChallenge? || op.WriteHandshake? {
      var message := if op.WriteHandshake? then EchoFailed else Unavailable;
      SendErrorFacts(s, STORAGE_ERROR, message);
      assert s == w'.s.(pending := {}, buffer := w.s.buffer);
      Refused(cfg, w, op, w', STORAGE_ERROR, message);
    } else if !op.WriteError? {
      Quiet(cfg, w, op, w');
    }
  }

  lemma ErrorStep(cfg: Config, w: World, n: nat, k: nat)
    requires Invariant(cfg, w) && Enabled(cfg, w, Transfer(WriteError(n), k))
    ensures Invariant(cfg, Next(cfg, w, Transfer(WriteError(n), k)))
  {
    SetupAlone(w, WriteError(n));
    var w' := Next(cfg, w, Transfer(WriteError(n), k));
    assert w'.s.pending == {};
    assert w.toClient == w.toClient[..w.greeted] + BehindGreeting(w);
    assert BehindGreeting(w') == w.s.buffer[..k];
    assert w.s.buffer[..k] == w.frame.value[..k];
  }

  // ---------------------------------------------------------------- steps of the relay

  /** A step of one direction leaves the operations of the other alone. */
  ghost predicate SameSideOps(p: set<Op>, p': set<Op>, side: Side) {
    forall op :: SideOf(op) == side ==> (op in p <==> op in p')
  }

  lemma UpUntouched(w: World, w': World)
    requires w.relay && w'.relay && UpConserved(w) && SameSideOps(w.s.pending, w'.s.pending, Up)
    requires w'.s.cltBuffer == w.s.cltBuffer && w'.s.handshakeSize == w.s.handshakeSize
    requires w'.fromClient == w.fromClient && w'.toBackend == w.toBackend
    requires w'.handshakeSent == w.handshakeSent && w'.lostUp == w.lostUp
    ensures UpConserved(w')
  {
    var rest :| UpRest(w, rest) && w.toBackend + rest == Forwarded(w);
    assert UpRest(w', rest);
  }

  lemma DownUntouched(w: World, w': World)
    requires w.relay && w'.relay && DownConserved(w) && SameSideOps(w.s.pending, w'.s.pending, Down)
    requires w'.s.buffer == w.s.buffer && w'.fromBackend == w.fromBackend && w'.toClient == w.toClient
    requires w'.challenge == w.challenge && w'.greeted == w.greeted && w'.lostDown == w.lostDown
    ensures DownConserved(w')
  {
    var rest :| DownRest(w, rest) && BehindGreeting(w) + rest == w.fromBackend[w.challenge..];
    assert DownRest(w', rest);
  }

  /** During the relay the set-up part of the invariant has nothing left to say. */
  lemma RelayInvariant(cfg: Config, w: World, w': World)
    requires Invariant(cfg, w) && w.relay && w'.relay
    requires Sized(w'.s) && OnePerSide(w') && w'.s.handshakeSize == w.s.handshakeSize
    requires w'.frame == w.frame && w'.greeted == w.greeted
    requires w.greeted <= |w'.toClient| && w'.toClient[..w.greeted] == w.toClient[..w.greeted]
    requires DownConserved(w') && UpConserved(w')
    ensures Invariant(cfg, w')
  {
    hide DownConserved, UpConserved;
    assert forall op <- w'.s.pending :: SideOf(op) != Setup;
  }

  lemma RelayPending(w: World, op: Op)
    requires OnePerSide(w) && op in w.s.pending && SideOf(op) != Setup
    ensures w.relay
    ensures forall a <- w.s.pending :: SideOf(a) == SideOf(op) ==> a == op
  {
  }

  /** Where an operation has completed there is room for the next one of its conversation. */
  lemma Room(w: World, op: Op, next: Op)
    requires OnePerSide(w) && op in w.s.pending && SideOf(next) == SideOf(op)
    ensures Clear(w.s.pending - {op}, next)
  {
  }

  /** Replacing an operation of one direction by another of the same direction, or by none. */
  lemma Replaced(w: World, op: Op, next: set<Op>, w': World)
    requires Sized(w.s) && OnePerSide(w) && op in w.s.pending && SideOf(op) != Setup
    requires w'.s.pending == w.s.pending - {op} + next && w'.s.crowded == w.s.crowded && w'.relay == w.relay
    requires |next| <= 1 && forall a <- next :: SideOf(a) == SideOf(op)
    requires forall a, b :: a in next && b in next ==> a == b
    ensures OnePerSide(w')
    ensures forall side :: side != SideOf(op) ==> SameSideOps(w.s.pending, w'.s.pending, side)
    ensures forall a <- w'.s.pending :: SideOf(a) == SideOf(op) ==> a in next
    ensures (&& |w'.s.buffer| == BUFFER_SIZE && |w'.s.cltBuffer| == BUFFER_SIZE
             && w'.s.handshakeSize == w.s.handshakeSize
             && (forall a <- next :: a.WriteClient? || a.WriteBackend? ==> a.sent <= a.n <= BUFFER_SIZE))
            ==> Sized(w'.s)
  {
    hide Sized, SameSideOps, OnePerSide;
    RelayPending(w, op);
    ReplacedSides(w, op, next, w');
    ReplacedSizes(w, op, next, w');
  }

  lemma ReplacedSides(w: World, op: Op, next: set<Op>, w': World)
    requires OnePerSide(w) && op in w.s.pending && SideOf(op) != Setup
    requires w'.s.pending == w.s.pending - {op} + next && w'.s.crowded == w.s.crowded && w'.relay == w.relay
    requires forall a <- next :: SideOf(a) == SideOf(op)
    requires forall a, b :: a in next && b in next ==> a == b
    ensures OnePerSide(w')
    ensures forall side :: side != SideOf(op) ==> SameSideOps(w.s.pending, w'.s.pending, side)
    ensures forall a <- w'.s.pending :: SideOf(a) == SideOf(op) ==> a in next
  {
    RelayPending(w, op);
  }

  lemma ReplacedSizes(w: World, op: Op, next: set<Op>, w': World)
    requires Sized(w.s) && SideOf(op) != Setup && w'.s.pending == w.s.pending - {op} + next
    requires forall a <- next :: SideOf(a) == SideOf(op)
    ensures (&& |w'.s.buffer| == BUFFER_SIZE && |w'.s.cltBuffer| == BUFFER_SIZE
             && w'.s.handshakeSize == w.s.handshakeSize
             && (forall a <- next :: a.WriteClient? || a.WriteBackend? ==> a.sent <= a.n <= BUFFER_SIZE))
            ==> Sized(w'.s)
  {
  }

  /** Bytes that leave a buffer move from the rest to what has been delivered. */
  lemma MovesOn(delivered: string, b: string, i: nat, j: nat, n: nat)
    requires i <= j <= n <= |b|
    ensures (delivered + b[i..j]) + b[j..n] == delivered + b[i..n]
  {
    assert b[i..n] == b[i..j] + b[j..n];
  }

  lemma BehindGrows(w: World, w': World, x: string)
    requires w.greeted <= |w.toClient| && w'.greeted == w.greeted && w'.toClient == w.toClient + x
    ensures BehindGreeting(w') == BehindGreeting(w) + x
  {
  }

  lemma ForwardedSame(w: World, w': World)
    requires w'.handshakeSent == w.handshakeSent && w'.s.handshakeSize == w.s.handshakeSize
    requires w'.fromClient == w.fromClient
    ensures Forwarded(w') == Forwarded(w)
  {
  }

  lemma SizesOf(s: SessionState)
    requires Sized(s)
    ensures |s.buffer| == BUFFER_SIZE && |s.cltBuffer| == BUFFER_SIZE
    ensures forall op <- s.pending :: op.WriteClient? || op.WriteBackend? ==> op.sent <= op.n <= BUFFER_SIZE
  {
  }

  lemma GreetedWithin(cfg: Config, w: World)
    requires ClientStream(cfg, w)
    ensures w.greeted <= |w.toClient|
  {
  }

  lemma BackendDataStep(cfg: Config, w: World, data: string)
    requires Invariant(cfg, w) && Enabled(cfg, w, Receive(ReadBackend, data))
    ensures Invariant(cfg, Next(cfg, w, Receive(ReadBackend, data)))
  {
    hide HandshakeStored, ErrorIsFinal, ClientStream, OnePerSide, UpConserved, Route, Picked, Frame,
         BehindGreeting, Clear;
    RelayPending(w, ReadBackend);
    Room(w, ReadBackend, WriteClient(|data|, 0));
    var w' := Next(cfg, w, Receive(ReadBackend, data));
    Replaced(w, ReadBackend, {WriteClient(|data|, 0)}, w');
    UpUntouched(w, w');
    var rest :| DownRest(w, rest) && BehindGreeting(w) + rest == w.fromBackend[w.challenge..];
    assert w'.s.buffer[0..|data|] == data;
    assert DownRest(w', data);
    assert w'.fromBackend[w.challenge..] == w.fromBackend[w.challenge..] + data;
    GreetedWithin(cfg, w);
    BehindGrows(w, w', "");
    assert BehindGreeting(w) + "" == BehindGreeting(w) && rest == "";
    assert BehindGreeting(w') + data == w'.fromBackend[w'.challenge..];
    RelayInvariant(cfg, w, w');
  }

  /** A pending write holds the rest, and a new one does again. */
  lemma DownHeld(w: World, op: Op, rest: string)
    requires DownRest(w, rest) && op in w.s.pending && op.WriteClient?
    ensures op.sent <= op.n <= |w.s.buffer| && rest == w.s.buffer[op.sent..op.n] && w.lostDown == ""
  {
    assert SideOf(op) == Down;
  }

  lemma DownHolds(w: World, op: Op)
    requires op in w.s.pending && op.WriteClient? && op.sent <= op.n <= |w.s.buffer| && w.lostDown == ""
    requires forall a <- w.s.pending :: SideOf(a) == Down ==> a == op
    ensures DownRest(w, w.s.buffer[op.sent..op.n])
  {
    assert SideOf(op) == Down;
    assert ReadBackend !in w.s.pending;
  }

  lemma UpHeld(w: World, op: Op, rest: string)
    requires UpRest(w, rest) && op in w.s.pending && op.WriteBackend?
    ensures op.sent <= op.n <= |w.s.cltBuffer| && rest == w.s.cltBuffer[op.sent..op.n] && w.lostUp == ""
  {
    assert SideOf(op) == Up;
  }

  lemma UpHolds(w: World, op: Op)
    requires op in w.s.pending && op.WriteBackend? && op.sent <= op.n <= |w.s.cltBuffer| && w.lostUp == ""
    requires forall a <- w.s.pending :: SideOf(a) == Up ==> a == op
    ensures UpRest(w, w.s.cltBuffer[op.sent..op.n])
  {
    assert SideOf(op) == Up;
    assert ReadClient !in w.s.pending && IssueClientRead !in w.s.pending;
  }

  lemma ClientWriteStep(cfg: Config, w: World, n: nat, sent: nat, k: nat)
    requires Invariant(cfg, w) && Enabled(cfg, w, Transfer(WriteClient(n, sent), k))
    ensures Invariant(cfg, Next(cfg, w, Transfer(WriteClient(n, sent), k)))
  {
    hide HandshakeStored, ErrorIsFinal, ClientStream, OnePerSide, UpConserved, DownConserved,
         Frame, Route, Picked, Clear;
    Room(w, WriteClient(n, sent), WriteClient(n, sent + k));
    ClientWrote(cfg, w, n, sent, k, Next(cfg, w, Transfer(WriteClient(n, sent), k)));
  }

  lemma ClientWrote(cfg: Config, w: World, n: nat, sent: nat, k: nat, w': World)
    requires Invariant(cfg, w) && WriteClient(n, sent) in w.s.pending && sent + k <= n
    requires w' == w.(s := w.s.(pending := w.s.pending - {WriteClient(n, sent)} + {WriteClient(n, sent + k)}),
                      toClient := w.toClient + w.s.buffer[sent..sent + k])
    ensures Invariant(cfg, w')
  {
    hide Sized, HandshakeStored, ErrorIsFinal, ClientStream, OnePerSide, UpConserved, BehindGreeting, DownRest;
    var op := WriteClient(n, sent);
    SizesOf(w.s);
    RelayPending(w, op);
    Replaced(w, op, {WriteClient(n, sent + k)}, w');
    UpUntouched(w, w');
    var rest :| DownRest(w, rest) && BehindGreeting(w) + rest == w.fromBackend[w.challenge..];
    DownHeld(w, op, rest);
    GreetedWithin(cfg, w);
    MovesOn(BehindGreeting(w), w.s.buffer, sent, sent + k, n);
    BehindGrows(w, w', w.s.buffer[sent..sent + k]);
    DownHolds(w', WriteClient(n, sent + k));
    RelayInvariant(cfg, w, w');
  }

  lemma ClientSentStep(cfg: Config, w: World, n: nat)
    requires Invariant(cfg, w) && Enabled(cfg, w, Sent(WriteClient(n, n)))
    ensures Invariant(cfg, Next(cfg, w, Sent(WriteClient(n, n))))
  {
    hide HandshakeStored, ErrorIsFinal, ClientStream, OnePerSide, UpConserved, Route, Picked, Frame, Clear;
    var op := WriteClient(n, n);
    RelayPending(w, op);
    Room(w, op, ReadBackend);
    var w' := Next(cfg, w, Sent(op));
    Replaced(w, op, {ReadBackend}, w');
    UpUntouched(w, w');
    var rest :| DownRest(w, rest) && BehindGreeting(w) + rest == w.fromBackend[w.challenge..];
    assert rest == "";
    assert DownRest(w', "");
    GreetedWithin(cfg, w);
    RelayInvariant(cfg, w, w');
  }

  lemma DownFailure(cfg: Config, w: World, op: Op)
    requires Invariant(cfg, w) && Enabled(cfg, w, Fail(op)) && SideOf(op) == Down
    ensures Invariant(cfg, Next(cfg, w, Fail(op)))
  {
    hide HandshakeStored, ErrorIsFinal, ClientStream, OnePerSide, UpConserved, Route, Picked, Frame;
    RelayPending(w, op);
    var w' := Next(cfg, w, Fail(op));
    Replaced(w, op, {}, w');
    UpUntouched(w, w');
    var rest :| DownRest(w, rest) && BehindGreeting(w) + rest == w.fromBackend[w.challenge..];
    assert w.lostDown == "";
    assert DownRest(w', rest);
    GreetedWithin(cfg, w);
    RelayInvariant(cfg, w, w');
  }

  lemma IssueStep(cfg: Config, w: World)
    requires Invariant(cfg, w) && Enabled(cfg, w, Issue)
    ensures Invariant(cfg, Next(cfg, w, Issue))
  {
    hide HandshakeStored, ErrorIsFinal, ClientStream, OnePerSide, DownConserved, Forwarded, Route, Picked, Frame, Clear;
    RelayPending(w, IssueClientRead);
    Room(w, IssueClientRead, ReadClient);
    var w' := Next(cfg, w, Issue);
    Replaced(w, IssueClientRead, {ReadClient}, w');
    DownUntouched(w, w');
    var rest :| UpRest(w, rest) && w.toBackend + rest == Forwarded(w);
    assert UpRest(w', rest);
    ForwardedSame(w, w');
    GreetedWithin(cfg, w);
    RelayInvariant(cfg, w, w');
  }

  lemma ClientDataStep(cfg: Config, w: World, data: string)
    requires Invariant(cfg, w) && Enabled(cfg, w, Receive(ReadClient, data))
    ensures Invariant(cfg, Next(cfg, w, Receive(ReadClient, data)))
  {
    hide HandshakeStored, ErrorIsFinal, ClientStream, OnePerSide, UpConserved, DownConserved,
         Frame, Route, Picked, Clear;
    Room(w, ReadClient, WriteBackend(|data|, 0));
    ClientData(cfg, w, data, Next(cfg, w, Receive(ReadClient, data)));
  }

  lemma ClientData(cfg: Config, w: World, data: string, w': World)
    requires Invariant(cfg, w) && ReadClient in w.s.pending && |data| <= BUFFER_SIZE
    requires w' == w.(s := w.s.(pending := w.s.pending - {ReadClient} + {WriteBackend(|data|, 0)},
                                cltBuffer := Overwritten(w.s.cltBuffer, data)),
                      fromClient := w.fromClient + data)
    ensures Invariant(cfg, w')
  {
    hide HandshakeStored, ErrorIsFinal, ClientStream, OnePerSide, DownConserved, Forwarded;
    RelayPending(w, ReadClient);
    Replaced(w, ReadClient, {WriteBackend(|data|, 0)}, w');
    DownUntouched(w, w');
    var rest :| UpRest(w, rest) && w.toBackend + rest == Forwarded(w);
    assert w'.s.cltBuffer[0..|data|] == data;
    assert UpRest(w', data);
    ForwardedGrows(w, w', data);
    assert w.toBackend + "" == w.toBackend;
    GreetedWithin(cfg, w);
    RelayInvariant(cfg, w, w');
  }

  lemma ForwardedGrows(w: World, w': World, data: string)
    requires w.handshakeSent <= w.s.handshakeSize <= |w.fromClient|
    requires w'.fromClient == w.fromClient + data
    requires w'.handshakeSent == w.handshakeSent && w'.s.handshakeSize == w.s.handshakeSize
    ensures Forwarded(w') == Forwarded(w) + data
  {
    assert w'.fromClient[..w.handshakeSent] == w.fromClient[..w.handshakeSent];
    assert w'.fromClient[w.s.handshakeSize..] == w.fromClient[w.s.handshakeSize..] + data;
  }

  lemma BackendWriteStep(cfg: Config, w: World, n: nat, sent: nat, k: nat)
    requires Invariant(cfg, w) && Enabled(cfg, w, Transfer(WriteBackend(n, sent), k))
    ensures Invariant(cfg, Next(cfg, w, Transfer(WriteBackend(n, sent), k)))
  {
    hide HandshakeStored, ErrorIsFinal, ClientStream, OnePerSide, UpConserved, DownConserved,
         Frame, Route, Picked, Clear;
    Room(w, WriteBackend(n, sent), WriteBackend(n, sent + k));
    BackendWrote(cfg, w, n, sent, k, Next(cfg, w, Transfer(WriteBackend(n, sent), k)));
  }

  lemma BackendWrote(cfg: Config, w: World, n: nat, sent: nat, k: nat, w': World)
    requires Invariant(cfg, w) && WriteBackend(n, sent) in w.s.pending && sent + k <= n
    requires w' == w.(s := w.s.(pending := w.s.pending - {WriteBackend(n, sent)} + {WriteBackend(n, sent + k)}),
                      toBackend := w.toBackend + w.s.cltBuffer[sent..sent + k])
    ensures Invariant(cfg, w')
  {
    hide Sized, HandshakeStored, ErrorIsFinal, ClientStream, OnePerSide, DownConserved, Forwarded, UpRest;
    var op := WriteBackend(n, sent);
    SizesOf(w.s);
    RelayPending(w, op);
    Replaced(w, op, {WriteBackend(n, sent + k)}, w');
    DownUntouched(w, w');
    var rest :| UpRest(w, rest) && w.toBackend + rest == Forwarded(w);
    UpHeld(w, op, rest);
    MovesOn(w.toBackend, w.s.cltBuffer, sent, sent + k, n);
    ForwardedSame(w, w');
    UpHolds(w', WriteBackend(n, sent + k));
    GreetedWithin(cfg, w);
    RelayInvariant(cfg, w, w');
  }

  lemma BackendSentStep(cfg: Config, w: World, n: nat)
    requires Invariant(cfg, w) && Enabled(cfg, w, Sent(WriteBackend(n, n)))
    ensures Invariant(cfg, Next(cfg, w, Sent(WriteBackend(n, n))))
  {
    hide HandshakeStored, ErrorIsFinal, ClientStream, OnePerSide, DownConserved, Forwarded, Route, Picked, Frame, Clear;
    var op := WriteBackend(n, n);
    RelayPending(w, op);
    Room(w, op, ReadClient);
    var w' := Next(cfg, w, Sent(op));
    Replaced(w, op, {ReadClient}, w');
    DownUntouched(w, w');
    var rest :| UpRest(w, rest) && w.toBackend + rest == Forwarded(w);
    assert rest == "";
    assert UpRest(w', "");
    ForwardedSame(w, w');
    GreetedWithin(cfg, w);
    RelayInvariant(cfg, w, w');
  }

  lemma UpFailure(cfg: Config, w: World, op: Op)
    requires Invariant(cfg, w) && Enabled(cfg, w, Fail(op)) && SideOf(op) == Up
    ensures Invariant(cfg, Next(cfg, w, Fail(op)))
  {
    hide HandshakeStored, ErrorIsFinal, ClientStream, OnePerSide, DownConserved, Route, Picked, Frame;
    RelayPending(w, op);
    var w' := Next(cfg, w, Fail(op));
    Replaced(w, op, {}, w');
    DownUntouched(w, w');
    var rest :| UpRest(w, rest) && w.toBackend + rest == Forwarded(w);
    assert w.lostUp == "";
    assert UpRest(w', rest);
    GreetedWithin(cfg, w);
    RelayInvariant(cfg, w, w');
  }

  // ---------------------------------------------------------------- every run

  lemma StepInvariant(cfg: Config, w: World, e: Event)
    requires Invariant(cfg, w) && Enabled(cfg, w, e)
    ensures Invariant(cfg, Next(cfg, w, e))
  {
    hide Invariant, Next;
    match e
    case Connected => ConnectedStep(cfg, w);
    case Issue => IssueStep(cfg, w);
    case Sent(op) =>
      if op.WriteClient? { ClientSentStep(cfg, w, op.n); } else { BackendSentStep(cfg, w, op.n); }
    case Receive(op, data) =>
      if op.ReadHandshake? { HandshakeStep(cfg, w, data); }
      else if op.ReadChallenge? { ChallengeStep(cfg, w, data); }
      else if op.ReadBackend? { BackendDataStep(cfg, w, data); }
      else { ClientDataStep(cfg, w, data); }
    case Transfer(op, k) =>
      if op.WriteGreeting? { GreetingStep(cfg, w, k); }
      else if op.WriteHandshake? { ForwardStep(cfg, w, k); }
      else if op.WriteError? { ErrorStep(cfg, w, op.n, k); }
      else if op.WriteClient? { ClientWriteStep(cfg, w, op.n, op.sent, k); }
      else { BackendWriteStep(cfg, w, op.n, op.sent, k); }
    case Fail(op) =>
      if SideOf(op) == Setup { SetupFailure(cfg, w, op); }
      else if SideOf(op) == Down { DownFailure(cfg, w, op); }
      else { UpFailure(cfg, w, op); }
  }

  lemma {:induction false} RunInvariant(cfg: Config, ws: seq<World>, es: seq<Event>, i: nat)
    requires IsRun(cfg, ws, es) && i < |ws|
    ensures Invariant(cfg, ws[i])
  {
    hide Invariant, Next;
    if i == 0 {
      InitialInvariant(cfg, ws[0]);
    } else {
      RunInvariant(cfg, ws, es, i - 1);
      assert IsStep(cfg, ws[i - 1], es[i - 1], ws[i]);
      StepInvariant(cfg, ws[i - 1], es[i - 1]);
    }
  }

  // ---------------------------------------------------------------- what the invariant says about a run

  datatype Buffer = NoBuffer | ServerBuffer | ClientBuffer

  /** The session buffer that an operation reads or writes. */
  function BufferOf(op: Op): Buffer {
    match op
    case WriteGreeting => NoBuffer
    case Connect => NoBuffer
    case IssueClientRead => NoBuffer
    case ReadHandshake => ClientBuffer
    case WriteHandshake => ClientBuffer
    case ReadClient => ClientBuffer
    case WriteBackend(_, _) => ClientBuffer
    case ReadChallenge => ServerBuffer
    case ReadBackend => ServerBuffer
    case WriteClient(_, _) => ServerBuffer
    case WriteError(_) => ServerBuffer
  }

  /** In every reachable state: one operation before the relay, one per direction during it, none ever issued while
      another of its conversation or the same one was pending, and never two operations on the same buffer; the
      handshake waits untouched until it is forwarded. */
  lemma Exclusive(cfg: Config, ws: seq<World>, es: seq<Event>, i: nat)
    requires IsRun(cfg, ws, es) && i < |ws|
    ensures var w := ws[i];
            && (!w.relay ==> |w.s.pending| <= 1)
            && |w.s.pending| <= 2 && !w.s.crowded
            && (forall a <- w.s.pending, b <- w.s.pending :: SideOf(a) == SideOf(b) ==> a == b)
            && (forall a <- w.s.pending, b <- w.s.pending ::
                  BufferOf(a) == BufferOf(b) != NoBuffer ==> a == b)
    ensures var w := ws[i];
            forall op <- w.s.pending :: HoldsHandshake(op) ==>
              w.s.handshakeSize == |w.fromClient| <= |w.s.cltBuffer|
              && w.s.cltBuffer[..w.s.handshakeSize] == w.fromClient
  {
    hide Next, ClientStream, DownConserved, UpConserved, ErrorIsFinal;
    RunInvariant(cfg, ws, es, i);
    CountBySide(ws[i]);
  }

  lemma CountBySide(w: World)
    requires OnePerSide(w)
    ensures |w.s.pending| <= 2 && (!w.relay ==> |w.s.pending| <= 1)
  {
    var p := w.s.pending;
    if p != {} {
      var a :| a in p;
      var rest := p - {a};
      assert |p| == 1 + |rest|;
      if rest != {} {
        var b :| b in rest;
        assert forall c <- rest :: c == b by {
          forall c | c in rest
            ensures c == b
          {
            assert SideOf(a) != SideOf(b) && SideOf(a) != SideOf(c);
          }
        }
        assert rest == {b};
      }
    }
  }

  /** The client gets as much of the greeting as its single write took, and then either bytes of one error frame or
      backend bytes in order, never both; it is the whole greeting that comes first exactly when that write took all
      of it. */
  lemma WhatTheClientGets(cfg: Config, ws: seq<World>, es: seq<Event>, i: nat)
    requires IsRun(cfg, ws, es) && i < |ws|
    ensures var w := ws[i];
            && w.greeted <= |cfg.greeting| && w.challenge <= |w.fromBackend|
            && w.toClient == cfg.greeting[..w.greeted] + BehindGreeting(w)
            && (w.toClient == cfg.greeting + BehindGreeting(w) <==> w.greeted == |cfg.greeting|)
            && (w.frame.Some? ==> !w.relay && BehindGreeting(w) <= w.frame.value)
            && (w.frame.None? && !w.relay ==> BehindGreeting(w) == "")
            && (w.relay ==> BehindGreeting(w) <= w.fromBackend[w.challenge..])
  {
    hide Next, UpConserved, HandshakeStored;
    RunInvariant(cfg, ws, es, i);
    var w := ws[i];
    assert w.toClient == w.toClient[..w.greeted] + w.toClient[w.greeted..];
    ChallengeWithin(cfg, ws, es, i);
    if w.greeted == |cfg.greeting| {
      assert cfg.greeting[..w.greeted] == cfg.greeting;
    } else {
      assert |cfg.greeting[..w.greeted] + BehindGreeting(w)| < |cfg.greeting + BehindGreeting(w)|;
    }
  }

  lemma {:induction false} ChallengeWithin(cfg: Config, ws: seq<World>, es: seq<Event>, i: nat)
    requires IsRun(cfg, ws, es) && i < |ws|
    ensures ws[i].challenge <= |ws[i].fromBackend|
  {
    if i > 0 {
      ChallengeWithin(cfg, ws, es, i - 1);
      assert IsStep(cfg, ws[i - 1], es[i - 1], ws[i]);
      ChallengeStays(cfg, ws[i - 1], es[i - 1]);
    }
  }

  lemma ChallengeStays(cfg: Config, w: World, e: Event)
    requires Sized(w.s) && Enabled(cfg, w, e) && w.challenge <= |w.fromBackend|
    ensures Next(cfg, w, e).challenge <= |Next(cfg, w, e).fromBackend|
  {
    hide Failed, Transferred, Received, Route, Picked, Frame, Message.Text, SendError, Overwritten, Refusal;
    var v := WithFrame(cfg, w, e);
    match e
    case Fail(op) => FailureBrings(cfg, v, op);
    case Transfer(op, k) => TransferBrings(cfg, v, op, k);
    case Receive(op, data) => DataBrings(cfg, v, op, data);
    case _ =>
  }

  lemma FailureBrings(cfg: Config, w: World, op: Op)
    requires Sized(w.s) && op in w.s.pending
    ensures Failed(cfg, w, op).challenge == w.challenge && Failed(cfg, w, op).fromBackend == w.fromBackend
  {
    hide Route, Picked, Frame, Message.Text, SendError, Overwritten;
  }

  lemma TransferBrings(cfg: Config, w: World, op: Op, k: nat)
    requires Sized(w.s) && Enabled(cfg, w, Transfer(op, k))
    ensures Transferred(cfg, w, op, k).challenge == w.challenge
    ensures Transferred(cfg, w, op, k).fromBackend == w.fromBackend
  {
    hide Route, Picked, Frame, Message.Text, SendError, Overwritten;
  }

  lemma DataBrings(cfg: Config, w: World, op: Op, data: string)
    requires Sized(w.s) && Enabled(cfg, w, Receive(op, data)) && w.challenge <= |w.fromBackend|
    ensures Received(cfg, w, op, data).challenge <= |Received(cfg, w, op, data).fromBackend|
  {
    hide Route, Picked, Frame, Message.Text, SendError, Overwritten;
  }

  /** Conservation downwards: what has been delivered and what is still held are, in order, exactly the bytes
      that the backend sent behind its first chunk. */
  lemma DownwardConservation(cfg: Config, ws: seq<World>, es: seq<Event>, i: nat, rest: string)
    requires IsRun(cfg, ws, es) && i < |ws| && ws[i].relay && DownRest(ws[i], rest)
    ensures ws[i].challenge <= |ws[i].fromBackend|
    ensures BehindGreeting(ws[i]) + rest == ws[i].fromBackend[ws[i].challenge..]
  {
    hide Next, UpConserved, HandshakeStored, ClientStream, ErrorIsFinal;
    RunInvariant(cfg, ws, es, i);
    var r :| DownRest(ws[i], r) && BehindGreeting(ws[i]) + r == ws[i].fromBackend[ws[i].challenge..];
    DownRestUnique(ws[i], r, rest);
  }

  lemma DownRestUnique(w: World, r: string, r': string)
    requires DownRest(w, r) && DownRest(w, r')
    ensures r == r'
  {
    if op :| op in w.s.pending && SideOf(op) == Down {
      assert op == ReadBackend || op.WriteClient?;
    }
  }

  lemma UpRestUnique(w: World, r: string, r': string)
    requires UpRest(w, r) && UpRest(w, r')
    ensures r == r'
  {
    if op :| op in w.s.pending && SideOf(op) == Up {
      assert op == ReadClient || op == IssueClientRead || op.WriteBackend?;
    }
  }

  /** Conservation upwards holds exactly when the single write of the handshake took all of it: the source
      does not write the remainder. */
  lemma UpwardConservation(cfg: Config, ws: seq<World>, es: seq<Event>, i: nat, rest: string)
    requires IsRun(cfg, ws, es) && i < |ws| && ws[i].relay && UpRest(ws[i], rest)
    ensures ws[i].handshakeSent <= ws[i].s.handshakeSize <= |ws[i].fromClient|
    ensures ws[i].toBackend + rest
         == ws[i].fromClient[..ws[i].handshakeSent] + ws[i].fromClient[ws[i].s.handshakeSize..]
    ensures ws[i].toBackend + rest == ws[i].fromClient <==> ws[i].handshakeSent == ws[i].s.handshakeSize
  {
    hide Next, DownConserved, HandshakeStored, ClientStream, ErrorIsFinal;
    RunInvariant(cfg, ws, es, i);
    var w := ws[i];
    var r :| UpRest(w, r) && w.toBackend + r == Forwarded(w);
    UpRestUnique(w, r, rest);
    if w.handshakeSent == w.s.handshakeSize {
      assert w.fromClient[..w.handshakeSent] + w.fromClient[w.handshakeSent..] == w.fromClient;
    } else {
      assert |Forwarded(w)| < |w.fromClient|;
    }
  }

  // ---------------------------------------------------------------- what never happens again

  ghost predicate DirectionEnded(w: World, side: Side) {
    w.relay && forall op <- w.s.pending :: SideOf(op) != side
  }

  lemma EndedStep(cfg: Config, w: World, e: Event, side: Side)
    requires Sized(w.s) && Enabled(cfg, w, e) && OnePerSide(w) && DirectionEnded(w, side)
    ensures DirectionEnded(Next(cfg, w, e), side)
  {
    hide Failed, Transferred, Received, Route, Picked, Frame, Message.Text, SendError, Overwritten, Refusal;
    var v := WithFrame(cfg, w, e);
    match e
    case Fail(op) => EndedFailure(cfg, v, op, side);
    case Transfer(op, k) => EndedTransfer(cfg, v, op, k, side);
    case Receive(op, data) => EndedData(cfg, v, op, data, side);
    case _ =>
  }

  lemma EndedFailure(cfg: Config, w: World, op: Op, side: Side)
    requires Sized(w.s) && op in w.s.pending && OnePerSide(w) && DirectionEnded(w, side)
    ensures DirectionEnded(Failed(cfg, w, op), side)
  {
    hide Route, Picked, Frame, Message.Text, SendError, Overwritten, Refusal;
    assert SideOf(op) != Setup;
  }

  lemma EndedTransfer(cfg: Config, w: World, op: Op, k: nat, side: Side)
    requires Sized(w.s) && Enabled(cfg, w, Transfer(op, k)) && OnePerSide(w) && DirectionEnded(w, side)
    ensures DirectionEnded(Transferred(cfg, w, op, k), side)
  {
    hide Route, Picked, Frame, Message.Text, SendError, Overwritten, Refusal;
    assert SideOf(op) != Setup;
  }

  lemma EndedData(cfg: Config, w: World, op: Op, data: string, side: Side)
    requires Sized(w.s) && Enabled(cfg, w, Receive(op, data)) && OnePerSide(w) && DirectionEnded(w, side)
    ensures DirectionEnded(Received(cfg, w, op, data), side)
  {
    hide Route, Picked, Frame, Message.Text, SendError, Overwritten, Refusal;
    assert SideOf(op) != Setup;
  }

  /** A relay direction that has ended never restarts. */
  lemma {:induction false} EndedForGood(cfg: Config, ws: seq<World>, es: seq<Event>, i: nat, j: nat, side: Side)
    requires IsRun(cfg, ws, es) && i <= j < |ws| && DirectionEnded(ws[i], side)
    ensures DirectionEnded(ws[j], side)
    decreases j
  {
    hide Next, Invariant;
    if i < j {
      EndedForGood(cfg, ws, es, i, j - 1, side);
      RunInvariant(cfg, ws, es, j - 1);
      InvariantGives(cfg, ws[j - 1]);
      assert IsStep(cfg, ws[j - 1], es[j - 1], ws[j]);
      EndedStep(cfg, ws[j - 1], es[j - 1], side);
    }
  }

  lemma InvariantGives(cfg: Config, w: World)
    requires Invariant(cfg, w)
    ensures Sized(w.s) && OnePerSide(w) && ErrorIsFinal(w)
  {
  }

  lemma ErrorStepFinal(cfg: Config, w: World, e: Event)
    requires Sized(w.s) && Enabled(cfg, w, e) && OnePerSide(w) && ErrorIsFinal(w) && w.frame.Some?
    ensures var w' := Next(cfg, w, e);
            && w'.frame == w.frame && w'.s.pending <= w.s.pending && !w'.relay
            && w'.fromBackend == w.fromBackend && w'.toBackend == w.toBackend && w'.fromClient == w.fromClient
  {
    hide Route, Picked, Frame, Message.Text, SendError, Overwritten;
    var op := WriteError(|w.frame.value|);
    assert forall a <- w.s.pending :: a == op;
  }

  /** After an error frame has been issued nothing is read, connected or relayed any more. */
  lemma {:induction false} ErrorIsTheEnd(cfg: Config, ws: seq<World>, es: seq<Event>, i: nat, j: nat)
    requires IsRun(cfg, ws, es) && i <= j < |ws| && ws[i].frame.Some?
    ensures ws[j].frame == ws[i].frame && !ws[j].relay
    ensures forall op <- ws[j].s.pending :: op == WriteError(|ws[i].frame.value|)
    ensures ws[j].fromBackend == ws[i].fromBackend && ws[j].toBackend == ws[i].toBackend
    ensures ws[j].fromClient == ws[i].fromClient
    decreases j
  {
    hide Next, Invariant;
    RunInvariant(cfg, ws, es, j);
    InvariantGives(cfg, ws[j]);
    if i < j {
      ErrorIsTheEnd(cfg, ws, es, i, j - 1);
      RunInvariant(cfg, ws, es, j - 1);
      InvariantGives(cfg, ws[j - 1]);
      assert IsStep(cfg, ws[j - 1], es[j - 1], ws[j]);
      ErrorStepFinal(cfg, ws[j - 1], es[j - 1]);
    }
  }

  /** The frame is one that the session makes for itself. */
  ghost predicate IsOwnFrame(frame: string) {
    exists eid, message: Message :: IsOwnId(eid) && frame == Frame(eid, message.Text())
  }

  /** The frame of a run carries one of the session's own identifiers and messages. */
  lemma {:induction false} FrameIsAnError(cfg: Config, ws: seq<World>, es: seq<Event>, i: nat)
    requires IsRun(cfg, ws, es) && i < |ws| && ws[i].frame.Some?
    ensures IsOwnFrame(ws[i].frame.value)
  {
    hide Failed, Transferred, Received, Frame, Message.Text, Route, Picked, IsOwnFrame;
    assert i > 0;
    assert IsStep(cfg, ws[i - 1], es[i - 1], ws[i]);
    FrameComesFrom(cfg, ws[i - 1], es[i - 1]);
    if ws[i - 1].frame == ws[i].frame {
      FrameIsAnError(cfg, ws, es, i - 1);
    }
  }

  /** In every run the frame reads back as a ra_svn failure with the identifier and message of the error. */
  lemma FrameIsReadable(cfg: Config, ws: seq<World>, es: seq<Event>, i: nat)
    requires IsRun(cfg, ws, es) && i < |ws| && ws[i].frame.Some?
    ensures exists eid: nat, message: Message ::
              IsOwnId(eid) && ReadItem(ws[i].frame.value) == Some((ErrorFrame.Failure(eid, message.Text()), ""))
  {
    hide Frame, Message.Text, ReadItem, ErrorFrame.Failure;
    FrameIsAnError(cfg, ws, es, i);
    var frame := ws[i].frame.value;
    var eid, message: Message :| IsOwnId(eid) && frame == Frame(eid, message.Text());
    TextIsNulFree(message);
    FrameReadsBack(eid, message.Text());
    var id: nat := eid;
    assert ReadItem(frame) == Some((ErrorFrame.Failure(id, message.Text()), ""));
  }

  lemma FrameComesFrom(cfg: Config, w: World, e: Event)
    requires Sized(w.s) && Enabled(cfg, w, e)
    ensures Next(cfg, w, e).frame == w.frame
         || (Next(cfg, w, e).frame.Some? && IsOwnFrame(Next(cfg, w, e).frame.value))
  {
    hide SendError, Overwritten, Frame, Message.Text, Route, Picked;
    if e.Receive? && e.op.ReadHandshake? {
      RouteIds(e.data, cfg.elements, cfg.default);
    }
    var r := Refusal(cfg, w.s, e);
    NextKeepsFrame(cfg, w, e);
    if r.Some? {
      var eid, message := r.value.0, r.value.1;
      assert IsOwnId(eid);
      assert WithFrame(cfg, w, e).frame == Some(Frame(eid, message.Text()));
    }
  }

  lemma NextKeepsFrame(cfg: Config, w: World, e: Event)
    requires Sized(w.s) && Enabled(cfg, w, e)
    ensures Next(cfg, w, e).frame == WithFrame(cfg, w, e).frame
  {
    hide SendError, Overwritten, Frame, Message.Text, Route, Picked, WithFrame;
  }
}
