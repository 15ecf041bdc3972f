/** The session in its own form: an object whose handlers fill buffers and issue operations. */
module SessionHandlers {
  import opened Wrappers
  import opened Router
  import opened Pipeline
  import opened ErrorFrame
  import opened Session
  import opened SessionRuns
  import Handshake
  import opened HandshakeReader
  import opened Url

  /** The handshake is still to be read. */
  predicate Awaits(s: SessionState) {
    WriteGreeting in s.pending || ReadHandshake in s.pending
  }

  lemma AwaitsAfterFailure(cfg: Config, w: World, op: Op)
    requires Sized(w.s) && op in w.s.pending && Awaits(Failed(cfg, w, op).s)
    ensures Awaits(w.s)
  {
    hide Route, Picked, Frame, Message.Text, Overwritten, Refusal;
  }

  lemma AwaitsAfterTransfer(cfg: Config, w: World, op: Op, k: nat)
    requires Sized(w.s) && Enabled(cfg, w, Transfer(op, k)) && Awaits(Transferred(cfg, w, op, k).s)
    ensures Awaits(w.s)
  {
    hide Route, Picked, Frame, Message.Text, Overwritten, Refusal;
  }

  lemma AwaitsAfterData(cfg: Config, w: World, op: Op, data: string)
    requires Sized(w.s) && OnePerSide(w) && Enabled(cfg, w, Receive(op, data))
    ensures !Awaits(Received(cfg, w, op, data).s)
  {
    hide Route, Picked, Frame, Message.Text, Overwritten, Refusal;
  }

  lemma Awaiting(s: SessionState, e: Event)
    ensures e.Receive? && e.op.ReadHandshake? && e.op in s.pending ==> Awaits(s)
  {
  }

  /** The frame that is noted when a completion is refused is no part of the session. */
  lemma FailedFrom(cfg: Config, w: World, op: Op)
    requires Sized(w.s) && Enabled(cfg, w, Fail(op))
    ensures Next(cfg, w, Fail(op)).s == Failed(cfg, w, op).s
  {
    hide SendError, Overwritten, Route, Picked, Frame, Message.Text, Refusal;
  }

  lemma ReceivedFrom(cfg: Config, w: World, op: Op, data: string)
    requires Sized(w.s) && Enabled(cfg, w, Receive(op, data))
    ensures Next(cfg, w, Receive(op, data)).s == Received(cfg, w, op, data).s
  {
    hide SendError, Overwritten, Route, Picked, Frame, Message.Text, Refusal;
  }

  /** A session that awaits the handshake has always done so. */
  lemma AwaitsHandshake(cfg: Config, w: World, e: Event)
    requires Sized(w.s) && OnePerSide(w) && Enabled(cfg, w, e) && Awaits(Next(cfg, w, e).s)
    ensures Awaits(w.s) && !(e.Receive? && e.op.ReadHandshake?)
  {
    hide Failed, Transferred, Received, Route, Frame, Message.Text, Overwritten, Refusal;
    var v := WithFrame(cfg, w, e);
    match e
    case Fail(op) => AwaitsAfterFailure(cfg, v, op);
    case Transfer(op, k) => AwaitsAfterTransfer(cfg, v, op, k);
    case Receive(op, data) => AwaitsAfterData(cfg, v, op, data);
    case _ =>
  }

  class SubversionSession {
    const router: RouterSeletor
    const isAddress: string -> bool
    const greeting: string
    const buffer: array<char>
    const cltBuffer: array<char>
    const hds: SubversionHds
    var node: StorageElement
    var handshakeSize: nat
    var pending: set<Op>  // the operations handed to the two sockets
    ghost var crowded: bool
    ghost var world: World  // the session and everything that has crossed its connections

    ghost function View(): SessionState
      reads this, buffer, cltBuffer
    {
      SessionState(pending, crowded, handshakeSize, buffer[..], cltBuffer[..], node)
    }

    ghost function Cfg(): Config
      reads router
    {
      Config(router.hostElement, StorageElement(router.defaultElement, router.defaultPort), greeting, isAddress)
    }

    ghost predicate Valid()
      reads this
    {
      && buffer.Length == BUFFER_SIZE && cltBuffer.Length == BUFFER_SIZE && buffer != cltBuffer
      && handshakeSize <= BUFFER_SIZE
    }

    /** The session is in the world that its completions have led to. */
    ghost predicate Running()
      reads this, router, hds, buffer, cltBuffer
    {
      && Valid() && world.s == View() && Invariant(Cfg(), world)
      && (Awaits(View()) ==> hds.View() == Handshake.NO_HDS)
    }

    constructor (router: RouterSeletor, isAddress: string -> bool, greeting: string)
      ensures Valid() && pending == {} && !crowded && handshakeSize == 0
      ensures this.router == router && this.isAddress == isAddress && this.greeting == greeting
      ensures hds.View() == Handshake.NO_HDS && fresh(hds) && fresh(buffer) && fresh(cltBuffer)
    {
      this.router, this.isAddress, this.greeting := router, isAddress, greeting;
      buffer := new char[BUFFER_SIZE];
      cltBuffer := new char[BUFFER_SIZE];
      hds := new SubversionHds();
      node, handshakeSize, pending, crowded := StorageElement("", 0), 0, {}, false;
    }

    method Issue(op: Op)
      modifies this`pending, this`crowded
      ensures View() == Issued(old(View()), op)
    {
      crowded := crowded || !Clear(pending, op);
      pending := pending + {op};
    }

    method StartSession()
      requires Valid() && pending == {} && !crowded && handshakeSize == 0 && hds.View() == Handshake.NO_HDS
      modifies this`pending, this`crowded, this`world
      ensures Running() && Initial(world)
    {
      Issue(WriteGreeting);
      world := World(View(), "", "", "", "", 0, 0, 0, None, false, "", "");
      InitialInvariant(Cfg(), world);
    }

    /** snprintf into the buffer that goes out to the client. */
    method ReportError(eid: int, message: Message)
      requires Valid() && IsInt32(eid)
      modifies this`pending, this`crowded, buffer
      ensures Valid() && View() == SendError(old(View()), eid, message)
    {
      hide Frame, Message.Text;
      FrameFits(eid, message.Text());
      var frame := Frame(eid, message.Text());
      var data := frame + "\0";
      for i := 0 to |data|
        invariant forall k :: 0 <= k < i ==> buffer[k] == data[k]
        invariant forall k :: i <= k < BUFFER_SIZE ==> buffer[k] == old(buffer[k])
        modifies buffer
      {
        buffer[i] := data[i];
      }
      assert buffer[..] == data + old(buffer[..])[|data|..];
      Issue(WriteError(|frame|));
    }

    method EchoDownstream(ok: bool)
      modifies this`pending, this`crowded
      ensures View() == EchoDownstreamHandshake(old(View()), ok)
    {
      if ok {
        Issue(ReadHandshake);
      }
    }

    /** The handshake has arrived: read it, find its backend, connect; or report what is wrong. */
    method ReadDownstream(ok: bool, n: nat)
      requires Valid() && n <= BUFFER_SIZE && (ok ==> hds.View() == Handshake.NO_HDS)
      modifies this`pending, this`crowded, this`handshakeSize, this`node, hds, buffer
      ensures Valid() && (!ok ==> hds.View() == old(hds.View()))
      ensures !ok || !Route(old(cltBuffer[..n]), Cfg().elements, Cfg().default).Unspecified? ==>
                View() == ReadDownstreamHandshake(Cfg(), old(View()), ok, n)
    {
      hide Frame, Message.Text, Handshake.Parse, Canonical, Chosen;
      if !ok {
        return;
      }
      handshakeSize := n;
      assert cltBuffer[..][..n] == cltBuffer[..n];
      var code := ParseSubversionHds(cltBuffer, n, hds);
      if code != 0 {
        ReportError(PARSE_ERROR, ReaderSays(hds.lastError));
        return;
      }
      var url := new SubversionURL();
      var split := SubversionUriCanonicalize(hds.subversionURL, url);
      if split != 0 {
        ReportError(PARSE_ERROR, ReaderSays(hds.lastError));
        return;
      }
      var elem := router.GetAddress(url.owner);
      if elem.Some? {
        node := elem.value;
      }
      if elem.None? || node.address == "" {
        ReportError(STORAGE_ERROR, NoStorage);
        return;
      }
      if !isAddress(node.address) {
        ReportError(STORAGE_ERROR, BadAddress);
        return;
      }
      Issue(Connect);
    }

    method ConnectUpstream(ok: bool)
      requires Valid()
      modifies this`pending, this`crowded, buffer
      ensures Valid() && View() == AsyncConnectUpstream(old(View()), ok)
    {
      if ok {
        Issue(ReadChallenge);
      } else {
        ReportError(STORAGE_ERROR, Unavailable);
      }
    }

    method ReadUpstream(ok: bool)
      requires Valid()
      modifies this`pending, this`crowded, buffer
      ensures Valid() && View() == ReadUpstreamHandshake(old(View()), ok)
    {
      if ok {
        Issue(WriteHandshake);
      } else {
        ReportError(STORAGE_ERROR, Unavailable);
      }
    }

    method EchoUpstream(ok: bool)
      requires Valid()
      modifies this`pending, this`crowded, buffer
      ensures Valid() && View() == EchoUpstreamHandshake(old(View()), ok)
    {
      if ok {
        Issue(ReadBackend);
        Issue(IssueClientRead);
      } else {
        ReportError(STORAGE_ERROR, EchoFailed);
      }
    }

    method OnUpstreamRead(ok: bool, n: nat)
      modifies this`pending, this`crowded
      ensures View() == UpstreamRead(old(View()), ok, n)
    {
      if ok {
        Issue(WriteClient(n, 0));
      }
    }

    method OnDownstreamWrite(ok: bool)
      modifies this`pending, this`crowded
      ensures View() == DownstreamWrite(old(View()), ok)
    {
      if ok {
        Issue(ReadBackend);
      }
    }

    method OnDownstreamRead(ok: bool, n: nat)
      modifies this`pending, this`crowded
      ensures View() == DownstreamRead(old(View()), ok, n)
    {
      if ok {
        Issue(WriteBackend(n, 0));
      }
    }

    method OnUpstreamWrite(ok: bool)
      modifies this`pending, this`crowded
      ensures View() == UpstreamWrite(old(View()), ok)
    {
      if ok {
        Issue(ReadClient);
      }
    }

    // -------------------------------------------------------------- completions

    /** Bytes arrive at the front of a buffer. */
    method Store(a: array<char>, data: string)
      requires |data| <= a.Length
      modifies a
      ensures a[..] == Overwritten(old(a[..]), data)
    {
      for i := 0 to |data|
        invariant forall k :: 0 <= k < i ==> a[k] == data[k]
        invariant forall k :: i <= k < a.Length ==> a[k] == old(a[k])
      {
        a[i] := data[i];
      }
      assert a[..] == data + old(a[..])[|data|..];
    }

    method Failing(op: Op)
      requires Valid() && Sized(View()) && op in pending
      requires world.s == View()
      modifies this`pending, this`crowded, this`handshakeSize, this`node, hds, buffer
      ensures Valid() && View() == Failed(Cfg(), old(world), op).s
      ensures hds.View() == old(hds.View())
    {
      hide SendError, Overwritten;
      if op.IssueClientRead? {
        return;
      }
      pending := pending - {op};
      match op
      case WriteGreeting => EchoDownstream(false);
      case ReadHandshake => ReadDownstream(false, 0);
      case Connect => ConnectUpstream(false);
      case ReadChallenge => ReadUpstream(false);
      case WriteHandshake => EchoUpstream(false);
      case ReadBackend => OnUpstreamRead(false, 0);
      case WriteClient(_, _) => OnDownstreamWrite(false);
      case ReadClient => OnDownstreamRead(false, 0);
      case WriteBackend(_, _) => OnUpstreamWrite(false);
      case _ =>
    }

    method Transferring(op: Op, k: nat)
      requires Valid() && Sized(View()) && Enabled(Cfg(), world, Transfer(op, k))
      requires world.s == View()
      modifies this`pending, this`crowded, buffer
      ensures Valid() && View() == Transferred(Cfg(), old(world), op, k).s
    {
      hide SendError, Overwritten;
      pending := pending - {op};
      match op
      case WriteGreeting => EchoDownstream(true);
      case WriteHandshake => EchoUpstream(true);
      case WriteClient(n, sent) => Issue(WriteClient(n, sent + k));
      case WriteBackend(n, sent) => Issue(WriteBackend(n, sent + k));
      case _ =>
    }

    method Receiving(op: Op, data: string)
      requires Valid() && Sized(View()) && Enabled(Cfg(), world, Receive(op, data))
      requires world.s == View() && (op.ReadHandshake? ==> hds.View() == Handshake.NO_HDS)
      requires op.ReadHandshake? ==> !Route(data, Cfg().elements, Cfg().default).Unspecified?
      modifies this`pending, this`crowded, this`handshakeSize, this`node, hds, buffer, cltBuffer
      ensures Valid() && View() == Received(Cfg(), old(world), op, data).s
      ensures !op.ReadHandshake? ==> hds.View() == old(hds.View())
    {
      hide SendError, Overwritten, Route, Picked;
      pending := pending - {op};
      match op
      case ReadHandshake =>
        Store(cltBuffer, data);
        assert cltBuffer[..|data|] == cltBuffer[..][..|data|] == data;
        ReadDownstream(true, |data|);
      case ReadChallenge =>
        Store(buffer, data);
        ReadUpstream(true);
      case ReadBackend =>
        Store(buffer, data);
        OnUpstreamRead(true, |data|);
      case ReadClient =>
        Store(cltBuffer, data);
        OnDownstreamRead(true, |data|);
      case _ =>
    }

    method Proceeding(e: Event)
      requires Valid() && Sized(View()) && Enabled(Cfg(), world, e) && world.s == View()
      requires e.Connected? || e.Sent? || e.Issue?
      modifies this`pending, this`crowded, buffer
      ensures Valid() && View() == Next(Cfg(), old(world), e).s
    {
      hide SendError, Overwritten, Route, Picked;
      if e.Connected? {
        pending := pending - {Connect};
        ConnectUpstream(true);
      } else if e.Sent? {
        pending := pending - {e.op};
        if e.op.WriteClient? {
          OnDownstreamWrite(true);
        } else {
          OnUpstreamWrite(true);
        }
      } else {
        pending := pending - {IssueClientRead};
        Issue(ReadClient);
      }
    }

    method Handle(e: Event)
      requires Valid() && Sized(View()) && Enabled(Cfg(), world, e) && world.s == View()
      requires e.Receive? && e.op.ReadHandshake? ==>
                 hds.View() == Handshake.NO_HDS && !Route(e.data, Cfg().elements, Cfg().default).Unspecified?
      modifies this`pending, this`crowded, this`handshakeSize, this`node, hds, buffer, cltBuffer
      ensures Valid() && View() == Next(Cfg(), old(world), e).s
      ensures !(e.Receive? && e.op.ReadHandshake?) ==> hds.View() == old(hds.View())
    {
      hide Route, Picked, SendError, Overwritten;
      match e
      case Fail(op) =>
        Failing(op);
        FailedFrom(Cfg(), world, op);
      case Transfer(op, k) => Transferring(op, k);
      case Receive(op, data) =>
        Receiving(op, data);
        ReceivedFrom(Cfg(), world, op, data);
      case _ => Proceeding(e);
    }

    /** An operation completes: the bytes are stored, its handler runs, and the session is where the transition
        system says. The handshakes left out are those whose length marks have no meaning. */
    method Complete(e: Event)
      requires Running() && Enabled(Cfg(), world, e)
      requires e.Receive? && e.op.ReadHandshake? ==> !Route(e.data, Cfg().elements, Cfg().default).Unspecified?
      modifies this, hds, buffer, cltBuffer
      ensures Running() && IsStep(Cfg(), old(world), e, world)
      ensures Cfg() == old(Cfg())
    {
      hide Route, Next, Invariant, Awaits;
      ghost var before := world;
      InvariantGives(Cfg(), world);
      Awaiting(world.s, e);
      Handle(e);
      world := Next(Cfg(), world, e);
      StepInvariant(Cfg(), before, e);
      if Awaits(world.s) {
        AwaitsHandshake(Cfg(), before, e);
      }
    }
  }
}
