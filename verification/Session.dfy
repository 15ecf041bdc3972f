/** The session of src/SubversionSession.cc as a transition system: the pending socket operations, which the
    environment completes in any order, and the handlers that issue the next ones. */
module Session {
  import opened Wrappers
  import opened Router
  import opened Pipeline
  import opened ErrorFrame

  /** kDefaultBufferSize */
  const BUFFER_SIZE: nat := 32 * 1024

  /** A pending operation. The two composed writes carry how much of their buffer they were given and how
      much of it has left. */
  datatype Op =
    | WriteGreeting
    | ReadHandshake
    | Connect
    | ReadChallenge
    | WriteHandshake
    | IssueClientRead  // the second statement of echo_upstream_handshake
    | ReadBackend
    | WriteClient(n: nat, sent: nat)
    | ReadClient
    | WriteBackend(n: nat, sent: nat)
    | WriteError(n: nat)

  datatype Side = Setup | Down | Up

  /** Which conversation an operation belongs to: the handshake, or one direction of the relay. */
  function SideOf(op: Op): Side {
    if op.ReadBackend? || op.WriteClient? then Down
    else if op.IssueClientRead? || op.ReadClient? || op.WriteBackend? then Up
    else Setup
  }

  /** The fields of a session and the operations it has handed to its sockets; `crowded` tells whether an operation
      has ever been issued while another one of its conversation, or the same one, was still pending. */
  datatype SessionState = SessionState(pending: set<Op>, crowded: bool, handshakeSize: nat, buffer: string,
                                       cltBuffer: string, node: StorageElement)

  /** No operation of the same conversation is pending. */
  predicate Clear(pending: set<Op>, op: Op) {
    forall a <- pending :: SideOf(a) != SideOf(op)
  }

  /** What a session is configured with: the routing table, the greeting, and which addresses are well formed. */
  datatype Config = Config(elements: seq<HostElement>, default: StorageElement, greeting: string,
                           isAddress: string -> bool)

  function Issued(s: SessionState, op: Op): SessionState {
    s.(pending := s.pending + {op}, crowded := s.crowded || !Clear(s.pending, op))
  }

  /** A completed operation is no longer pending. */
  function Completed(s: SessionState, op: Op): SessionState {
    s.(pending := s.pending - {op})
  }

  /** Bytes stored at the front of a buffer. */
  function Overwritten(buffer: string, data: string): (r: string)
    ensures |data| <= |buffer| ==> |r| == |buffer| && r[..|data|] == data
  {
    if |data| <= |buffer| then data + buffer[|data|..] else buffer
  }

  // ---------------------------------------------------------------- the handlers

  function SendError(s: SessionState, eid: int, message: Message): SessionState {
    var frame := Frame(eid, message.Text());
    Issued(s.(buffer := Overwritten(s.buffer, frame + "\0")), WriteError(|frame|))
  }

  function Start(s: SessionState): SessionState {
    Issued(s, WriteGreeting)
  }

  function EchoDownstreamHandshake(s: SessionState, ok: bool): SessionState {
    if ok then Issued(s, ReadHandshake) else s
  }

  function ReadDownstreamHandshake(cfg: Config, s: SessionState, ok: bool, n: nat): SessionState
    requires n <= |s.cltBuffer|
  {
    if !ok then s
    else
      var text := s.cltBuffer[..n];
      var s' := s.(handshakeSize := n, node := Picked(text, cfg.elements, cfg.default, s.node));
      match Route(text, cfg.elements, cfg.default)
      case Unspecified => s'
      case Refuse(eid, message) => SendError(s', eid, message)
      case Forward(node) =>
        if cfg.isAddress(node.address) then Issued(s', Connect) else SendError(s', STORAGE_ERROR, BadAddress)
  }

  function AsyncConnectUpstream(s: SessionState, ok: bool): SessionState {
    if ok then Issued(s, ReadChallenge) else SendError(s, STORAGE_ERROR, Unavailable)
  }

  function ReadUpstreamHandshake(s: SessionState, ok: bool): SessionState {
    if ok then Issued(s, WriteHandshake) else SendError(s, STORAGE_ERROR, Unavailable)
  }

  function EchoUpstreamHandshake(s: SessionState, ok: bool): SessionState {
    if ok then Issued(Issued(s, ReadBackend), IssueClientRead) else SendError(s, STORAGE_ERROR, EchoFailed)
  }

  function UpstreamRead(s: SessionState, ok: bool, n: nat): SessionState {
    if ok then Issued(s, WriteClient(n, 0)) else s
  }

  function DownstreamWrite(s: SessionState, ok: bool): SessionState {
    if ok then Issued(s, ReadBackend) else s
  }

  function DownstreamRead(s: SessionState, ok: bool, n: nat): SessionState {
    if ok then Issued(s, WriteBackend(n, 0)) else s
  }

  function UpstreamWrite(s: SessionState, ok: bool): SessionState {
    if ok then Issued(s, ReadClient) else s
  }

  // ---------------------------------------------------------------- the world around a session

  /** The session and everything that has crossed its two connections. */
  datatype World = World(
    s: SessionState,
    fromClient: string, toClient: string,
    fromBackend: string, toBackend: string,
    greeted: nat,            // greeting bytes that reached the client
    challenge: nat,          // length of the backend's first chunk
    handshakeSent: nat,      // handshake bytes that reached the backend
    frame: Option<string>,   // the error frame, once one has been issued
    relay: bool,             // the relay has been entered
    lostDown: string,        // what a relay write had not sent when it failed
    lostUp: string)

  /** What may happen next. Writes report how many bytes left, reads deliver bytes. */
  datatype Event =
    | Fail(op: Op)
    | Transfer(op: Op, k: nat)
    | Receive(op: Op, data: string)
    | Connected
    | Sent(op: Op)
    | Issue

  predicate Enabled(cfg: Config, w: World, e: Event) {
    match e
    case Fail(op) => op in w.s.pending && !op.IssueClientRead?
    case Transfer(op, k) =>
      && op in w.s.pending
      && (match op
          case WriteGreeting => k <= |cfg.greeting|
          case WriteHandshake => k <= w.s.handshakeSize
          case WriteError(n) => k <= n
          case WriteClient(n, sent) => sent + k <= n
          case WriteBackend(n, sent) => sent + k <= n
          case _ => false)
    case Receive(op, data) =>
      op in w.s.pending && |data| <= BUFFER_SIZE
      && (op.ReadHandshake? || op.ReadChallenge? || op.ReadBackend? || op.ReadClient?)
    case Connected => Connect in w.s.pending
    case Sent(op) =>
      op in w.s.pending && (op.WriteClient? || op.WriteBackend?) && op.sent == op.n
    case Issue => IssueClientRead in w.s.pending
  }

  /** Sizes that every session keeps, so that the operations' byte counts lie inside the buffers. */
  predicate Sized(s: SessionState) {
    && |s.buffer| == BUFFER_SIZE && |s.cltBuffer| == BUFFER_SIZE && s.handshakeSize <= BUFFER_SIZE
    && (forall op <- s.pending :: op.WriteClient? || op.WriteBackend? ==> op.sent <= op.n <= BUFFER_SIZE)
    && (forall op <- s.pending :: op.WriteError? ==> op.n <= BUFFER_SIZE)
  }

  /** The error that a completion makes the session report, if any. */
  function Refusal(cfg: Config, s: SessionState, e: Event): Option<(int, Message)> {
    match e
    case Receive(ReadHandshake, data) =>
      (match Route(data, cfg.elements, cfg.default)
       case Refuse(eid, message) => Some((eid, message))
       case Forward(node) => if cfg.isAddress(node.address) then None else Some((STORAGE_ERROR, BadAddress))
       case Unspecified => None)
    case Fail(Connect) => Some((STORAGE_ERROR, Unavailable))
    case Fail(ReadChallenge) => Some((STORAGE_ERROR, Unavailable))
    case Fail(WriteHandshake) => Some((STORAGE_ERROR, EchoFailed))
    case _ => None
  }

  function WithFrame(cfg: Config, w: World, e: Event): World {
    var r := Refusal(cfg, w.s, e);
    if r.Some? then w.(frame := Some(Frame(r.value.0, r.value.1.Text()))) else w
  }

  /** An operation completes with an error. */
  function Failed(cfg: Config, w: World, op: Op): World
    requires Sized(w.s) && op in w.s.pending
  {
    var s := Completed(w.s, op);
    match op
    case WriteGreeting => w.(s := EchoDownstreamHandshake(s, false))
    case ReadHandshake => w.(s := ReadDownstreamHandshake(cfg, s, false, 0))
    case Connect => w.(s := AsyncConnectUpstream(s, false))
    case ReadChallenge => w.(s := ReadUpstreamHandshake(s, false))
    case WriteHandshake => w.(s := EchoUpstreamHandshake(s, false))
    case ReadBackend => w.(s := UpstreamRead(s, false, 0))
    case WriteClient(n, sent) => w.(s := DownstreamWrite(s, false), lostDown := s.buffer[sent..n])
    case ReadClient => w.(s := DownstreamRead(s, false, 0))
    case WriteBackend(n, sent) => w.(s := UpstreamWrite(s, false), lostUp := s.cltBuffer[sent..n])
    case WriteError(_) => w.(s := s)
    case IssueClientRead => w
  }

  /** Bytes leave: a simple write completes with them, a composed write goes on. */
  function Transferred(cfg: Config, w: World, op: Op, k: nat): World
    requires Sized(w.s) && Enabled(cfg, w, Transfer(op, k))
  {
    var s := Completed(w.s, op);
    match op
    case WriteGreeting =>
      w.(s := EchoDownstreamHandshake(s, true), toClient := w.toClient + cfg.greeting[..k], greeted := k)
    case WriteHandshake =>
      w.(s := EchoUpstreamHandshake(s, true), toBackend := w.toBackend + s.cltBuffer[..k],
         handshakeSent := k, relay := true)
    case WriteError(_) =>
      w.(s := s, toClient := w.toClient + s.buffer[..k])
    case WriteClient(n, sent) =>
      w.(s := Issued(s, WriteClient(n, sent + k)), toClient := w.toClient + s.buffer[sent..sent + k])
    case WriteBackend(n, sent) =>
      w.(s := Issued(s, WriteBackend(n, sent + k)), toBackend := w.toBackend + s.cltBuffer[sent..sent + k])
    case _ => w
  }

  /** Bytes arrive in the buffer of a read. */
  function Received(cfg: Config, w: World, op: Op, data: string): World
    requires Sized(w.s) && Enabled(cfg, w, Receive(op, data))
  {
    var s := Completed(w.s, op);
    match op
    case ReadHandshake =>
      w.(s := ReadDownstreamHandshake(cfg, s.(cltBuffer := Overwritten(s.cltBuffer, data)), true, |data|),
         fromClient := w.fromClient + data)
    case ReadChallenge =>
      w.(s := ReadUpstreamHandshake(s.(buffer := Overwritten(s.buffer, data)), true),
         fromBackend := w.fromBackend + data, challenge := |data|)
    case ReadBackend =>
      w.(s := UpstreamRead(s.(buffer := Overwritten(s.buffer, data)), true, |data|),
         fromBackend := w.fromBackend + data)
    case ReadClient =>
      w.(s := DownstreamRead(s.(cltBuffer := Overwritten(s.cltBuffer, data)), true, |data|),
         fromClient := w.fromClient + data)
    case _ => w
  }

  /** The effect of an enabled event. */
  function Next(cfg: Config, w: World, e: Event): World
    requires Sized(w.s) && Enabled(cfg, w, e)
  {
    var v := WithFrame(cfg, w, e);
    match e
    case Fail(op) => Failed(cfg, v, op)
    case Transfer(op, k) => Transferred(cfg, v, op, k)
    case Receive(op, data) => Received(cfg, v, op, data)
    case Connected => v.(s := AsyncConnectUpstream(Completed(v.s, Connect), true))
    case Sent(op) =>
      var s := Completed(v.s, op);
      v.(s := if op.WriteClient? then DownstreamWrite(s, true) else UpstreamWrite(s, true))
    case Issue => v.(s := Issued(Completed(v.s, IssueClientRead), ReadClient))
  }

  /** A world in which a session has just been started. */
  ghost predicate Initial(w: World) {
    && |w.s.buffer| == BUFFER_SIZE && |w.s.cltBuffer| == BUFFER_SIZE && w.s.handshakeSize == 0
    && w.s.pending == {WriteGreeting} && !w.s.crowded
    && w.fromClient == w.toClient == w.fromBackend == w.toBackend == w.lostDown == w.lostUp == ""
    && w.greeted == w.challenge == w.handshakeSent == 0 && w.frame.None? && !w.relay
  }
}
