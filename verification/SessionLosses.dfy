/** Runs in which the single writes of src/SubversionSession.cc take less than they were given. */
module SessionLosses {
  import opened Wrappers
  import opened Router
  import opened Pipeline
  import opened ErrorFrame
  import opened Session
  import opened SessionRuns
  import Handshake

  // ---------------------------------------------------------------- the steps of a set-up

  lemma Greeted(cfg: Config, w: World, k: nat) returns (w': World)
    requires Initial(w) && k <= |cfg.greeting|
    ensures IsStep(cfg, w, Transfer(WriteGreeting, k), w') && Sized(w'.s)
    ensures w' == w.(s := w.s.(pending := {ReadHandshake}), toClient := cfg.greeting[..k], greeted := k)
  {
    w' := Next(cfg, w, Transfer(WriteGreeting, k));
    assert w'.s.pending == {ReadHandshake};
    assert "" + cfg.greeting[..k] == cfg.greeting[..k];
  }

  lemma Routed(cfg: Config, w: World, data: string) returns (w': World)
    requires Sized(w.s) && w.s.pending == {ReadHandshake} && w.fromClient == "" && |data| <= BUFFER_SIZE
    requires var route := Route(data, cfg.elements, cfg.default); route.Forward? && cfg.isAddress(route.node.address)
    ensures IsStep(cfg, w, Receive(ReadHandshake, data), w') && Sized(w'.s)
    ensures w'.s == w.s.(pending := {Connect}, handshakeSize := |data|,
                         cltBuffer := Overwritten(w.s.cltBuffer, data), node := w'.s.node)
    ensures w' == w.(s := w'.s, fromClient := data)
  {
    hide Route, Picked, Frame;
    w' := Next(cfg, w, Receive(ReadHandshake, data));
    assert Overwritten(w.s.cltBuffer, data)[..|data|] == data;
    assert "" + data == data;
    assert w'.s.pending == {Connect};
  }

  /** Connecting and reading the first chunk of the backend. */
  lemma Challenged(cfg: Config, w: World, chunk: string) returns (w1: World, w2: World)
    requires Sized(w.s) && w.s.pending == {Connect} && |chunk| <= BUFFER_SIZE
    ensures IsStep(cfg, w, Connected, w1) && IsStep(cfg, w1, Receive(ReadChallenge, chunk), w2) && Sized(w2.s)
    ensures w2.s == w.s.(pending := {WriteHandshake}, buffer := w2.s.buffer)
    ensures w2 == w.(s := w2.s, fromBackend := w.fromBackend + chunk, challenge := |chunk|)
  {
    hide Route, Picked, Frame;
    w1 := Next(cfg, w, Connected);
    assert w1.s.pending == {ReadChallenge};
    w2 := Next(cfg, w1, Receive(ReadChallenge, chunk));
    assert w2.s.pending == {WriteHandshake};
  }

  /** The single write of the handshake takes `k` bytes, and both relay reads are issued. */
  lemma Forwarding(cfg: Config, w: World, k: nat) returns (w1: World, w2: World)
    requires Sized(w.s) && w.s.pending == {WriteHandshake} && k <= w.s.handshakeSize
    ensures IsStep(cfg, w, Transfer(WriteHandshake, k), w1) && IsStep(cfg, w1, Issue, w2) && Sized(w2.s)
    ensures w2 == w.(s := w.s.(pending := {ReadBackend, ReadClient}),
                     toBackend := w.toBackend + w.s.cltBuffer[..k], handshakeSent := k, relay := true)
  {
    hide Route, Picked, Frame;
    w1 := Next(cfg, w, Transfer(WriteHandshake, k));
    assert w1.s.pending == {ReadBackend, IssueClientRead};
    w2 := Next(cfg, w1, Issue);
    assert w2.s.pending == {ReadBackend, ReadClient};
  }

  /** The client sends a chunk, and the backend gets all of it. */
  lemma Relayed(cfg: Config, w: World, more: string) returns (w1: World, w2: World, w3: World)
    requires Sized(w.s) && w.s.pending == {ReadBackend, ReadClient} && |more| <= BUFFER_SIZE
    ensures IsStep(cfg, w, Receive(ReadClient, more), w1)
    ensures IsStep(cfg, w1, Transfer(WriteBackend(|more|, 0), |more|), w2)
    ensures IsStep(cfg, w2, Sent(WriteBackend(|more|, |more|)), w3)
    ensures w3.s == w.s.(cltBuffer := w3.s.cltBuffer)
    ensures w3 == w.(s := w3.s, fromClient := w.fromClient + more, toBackend := w.toBackend + more)
  {
    hide Route, Picked, Frame;
    w1 := Next(cfg, w, Receive(ReadClient, more));
    assert w1.s.pending == {ReadBackend, WriteBackend(|more|, 0)};
    w2 := Next(cfg, w1, Transfer(WriteBackend(|more|, 0), |more|));
    assert w2.s.pending == {ReadBackend, WriteBackend(|more|, |more|)};
    assert w1.s.cltBuffer[0..0 + |more|] == more;
    w3 := Next(cfg, w2, Sent(WriteBackend(|more|, |more|)));
    assert w3.s.pending == {ReadBackend, ReadClient};
  }

  // ---------------------------------------------------------------- a short write of the handshake

  /** Whatever routable handshake a client sends, whatever the backend answers to the connection, and whatever the
      client sends next: there is a run with the whole greeting written in which the backend gets the first `k` bytes
      of the handshake and then the next chunk, without the bytes between. */
  lemma ShortWriteLoses(cfg: Config, w0: World, data: string, chunk: string, k: nat, more: string)
    returns (ws: seq<World>, es: seq<Event>)
    requires Initial(w0) && 0 < k < |data| <= BUFFER_SIZE
    requires 0 < |chunk| <= BUFFER_SIZE && 0 < |more| <= BUFFER_SIZE
    requires var route := Route(data, cfg.elements, cfg.default); route.Forward? && cfg.isAddress(route.node.address)
    ensures IsRun(cfg, ws, es) && ws[0] == w0
    ensures var w := ws[|ws| - 1];
            && w.relay && w.toClient == cfg.greeting && w.fromBackend == chunk && UpRest(w, "")
            && w.fromClient == data + more && w.toBackend == data[..k] + more
            && w.toBackend != w.fromClient
  {
    hide Next, Route, Picked, IsStep, Sized;
    var w1 := Greeted(cfg, w0, |cfg.greeting|);
    var w2 := Routed(cfg, w1, data);
    var w3, w4 := Challenged(cfg, w2, chunk);
    var w5, w6 := Forwarding(cfg, w4, k);
    var w7, w8, w9 := Relayed(cfg, w6, more);
    ws, es := [w0, w1, w2, w3, w4, w5, w6, w7, w8, w9],
      [Transfer(WriteGreeting, |cfg.greeting|), Receive(ReadHandshake, data), Connected, Receive(ReadChallenge, chunk),
       Transfer(WriteHandshake, k), Issue, Receive(ReadClient, more), Transfer(WriteBackend(|more|, 0), |more|),
       Sent(WriteBackend(|more|, |more|))];
    SizesOf(w0.s);
    FrontOf(w0.s.cltBuffer, data, k);
    assert "" + data[..k] == data[..k] && "" + chunk == chunk;
    assert cfg.greeting[..|cfg.greeting|] == cfg.greeting;
    assert |data[..k] + more| < |data + more|;
  }

  lemma FrontOf(buffer: string, data: string, k: nat)
    requires k <= |data| <= |buffer|
    ensures Overwritten(buffer, data)[..k] == data[..k]
  {
  }

  // ---------------------------------------------------------------- a short write of the greeting

  /** For any shorter write of the greeting and any handshake that is refused there is a run in which the error frame
      follows the cut greeting. */
  lemma CutGreeting(cfg: Config, w0: World, k: nat, data: string) returns (ws: seq<World>, es: seq<Event>)
    requires Initial(w0) && k < |cfg.greeting| && 0 < |data| <= BUFFER_SIZE
    requires Route(data, cfg.elements, cfg.default).Refuse?
    ensures IsRun(cfg, ws, es) && ws[0] == w0
    ensures var w := ws[|ws| - 1];
            && w.frame.Some? && w.frame.value != "" && w.s.pending == {}
            && w.toClient == cfg.greeting[..k] + w.frame.value
            && w.toClient != cfg.greeting + w.frame.value
  {
    hide Next, Route, Picked, IsStep, Sized;
    var w1 := Greeted(cfg, w0, k);
    var w2 := Rejected(cfg, w1, data);
    var frame := w2.frame.value;
    var w3 := Reported(cfg, w2);
    ws, es := [w0, w1, w2, w3],
      [Transfer(WriteGreeting, k), Receive(ReadHandshake, data), Transfer(WriteError(|frame|), |frame|)];
    assert |cfg.greeting[..k] + frame| < |cfg.greeting + frame|;
  }

  lemma Rejected(cfg: Config, w: World, data: string) returns (w': World)
    requires Sized(w.s) && w.s.pending == {ReadHandshake} && |data| <= BUFFER_SIZE
    requires Route(data, cfg.elements, cfg.default).Refuse?
    ensures IsStep(cfg, w, Receive(ReadHandshake, data), w') && Sized(w'.s)
    ensures w'.frame.Some? && w'.frame.value != "" && w'.toClient == w.toClient
    ensures w'.s.pending == {WriteError(|w'.frame.value|)}
    ensures |w'.frame.value| <= |w'.s.buffer| && w'.s.buffer[..|w'.frame.value|] == w'.frame.value
  {
    hide Route, Picked, SendError, Message.Text;
    w' := Next(cfg, w, Receive(ReadHandshake, data));
    RouteIds(data, cfg.elements, cfg.default);
    var route := Route(data, cfg.elements, cfg.default);
    var clt := Overwritten(w.s.cltBuffer, data);
    var s := w.s.(pending := {}, cltBuffer := clt, handshakeSize := |data|,
                  node := Picked(data, cfg.elements, cfg.default, w.s.node));
    assert clt[..|data|] == data;
    assert Completed(w.s, ReadHandshake).pending == {};
    assert w'.s == SendError(s, route.eid, route.message);
    SendErrorFacts(s, route.eid, route.message);
    assert w'.s.pending == {WriteError(|w'.frame.value|)};
  }

  lemma Reported(cfg: Config, w: World) returns (w': World)
    requires Sized(w.s) && w.frame.Some? && w.s.pending == {WriteError(|w.frame.value|)}
    requires |w.frame.value| <= |w.s.buffer| && w.s.buffer[..|w.frame.value|] == w.frame.value
    ensures var n := |w.frame.value|; IsStep(cfg, w, Transfer(WriteError(n), n), w')
    ensures w'.frame == w.frame && w'.s.pending == {} && w'.toClient == w.toClient + w.frame.value
  {
    hide Route, Picked, Frame, Message.Text;
    var n := |w.frame.value|;
    w' := Next(cfg, w, Transfer(WriteError(n), n));
    assert w'.s.pending == {};
  }

  /** There are handshakes that are refused whatever the routing table says. */
  lemma NulIsRefused(es: seq<HostElement>, default: StorageElement)
    ensures Route("\0", es, default) == Refuse(PARSE_ERROR, ReaderSays(Handshake.NulByte))
  {
  }
}
