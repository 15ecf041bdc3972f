/** What keeps a session of src/SubversionSession.cc going, and what ends it. */
module SessionProgress {
  import opened Wrappers
  import opened Router
  import opened Pipeline
  import opened ErrorFrame
  import opened Session
  import opened SessionRuns
  import SessionLosses

  // ---------------------------------------------------------------- a direction ends by an error only

  /** Something of this conversation is pending. */
  ghost predicate Goes(w: World, side: Side) {
    exists op :: op in w.s.pending && SideOf(op) == side
  }

  lemma EndedIs(w: World, side: Side)
    requires w.relay
    ensures DirectionEnded(w, side) <==> !Goes(w, side)
  {
  }

  predicate FailsOn(e: Event, side: Side) {
    e.Fail? && SideOf(e.op) == side
  }

  lemma GoesByOp(w: World, op: Op)
    requires op in w.s.pending
    ensures Goes(w, SideOf(op))
  {
  }

  /** Completing one operation and issuing another one of its conversation. */
  lemma GoesOn(w: World, op: Op, next: Op, w': World, side: Side)
    requires Goes(w, side) && SideOf(next) == SideOf(op)
    requires w'.s.pending == w.s.pending - {op} + {next}
    ensures Goes(w', side)
  {
    var a :| a in w.s.pending && SideOf(a) == side;
    if a == op {
      assert next in w'.s.pending;
    } else {
      assert a in w'.s.pending;
    }
  }

  lemma FailureGoesOn(cfg: Config, w: World, op: Op, side: Side)
    requires Sized(w.s) && op in w.s.pending && Goes(w, side) && SideOf(op) != Setup && SideOf(op) != side
    ensures Goes(Failed(cfg, w, op), side)
  {
    hide Route, Picked, Frame, Message.Text, SendError, Overwritten;
    var a :| a in w.s.pending && SideOf(a) == side;
    assert a in Failed(cfg, w, op).s.pending;
  }

  lemma TransferGoesOn(cfg: Config, w: World, op: Op, k: nat, side: Side)
    requires Sized(w.s) && Enabled(cfg, w, Transfer(op, k)) && Goes(w, side) && SideOf(op) != Setup
    ensures Goes(Transferred(cfg, w, op, k), side)
  {
    hide Route, Picked, Frame, Message.Text, SendError, Overwritten, Goes;
    match op
    case WriteClient(n, sent) => GoesOn(w, op, WriteClient(n, sent + k), Transferred(cfg, w, op, k), side);
    case WriteBackend(n, sent) => GoesOn(w, op, WriteBackend(n, sent + k), Transferred(cfg, w, op, k), side);
    case _ =>
  }

  lemma DataGoesOn(cfg: Config, w: World, op: Op, data: string, side: Side)
    requires Sized(w.s) && Enabled(cfg, w, Receive(op, data)) && Goes(w, side) && SideOf(op) != Setup
    ensures Goes(Received(cfg, w, op, data), side)
  {
    hide Route, Picked, Frame, Message.Text, SendError, Overwritten, Goes;
    match op
    case ReadBackend => GoesOn(w, op, WriteClient(|data|, 0), Received(cfg, w, op, data), side);
    case ReadClient => GoesOn(w, op, WriteBackend(|data|, 0), Received(cfg, w, op, data), side);
    case _ =>
  }

  /** During the relay every step but an error keeps its direction going, and every step the other one. */
  lemma RelayGoesOn(cfg: Config, w: World, e: Event, side: Side)
    requires Invariant(cfg, w) && Enabled(cfg, w, e) && w.relay && Goes(w, side) && !FailsOn(e, side)
    ensures Goes(Next(cfg, w, e), side)
  {
    hide Failed, Transferred, Received, Route, Picked, Frame, Message.Text, SendError, Overwritten, Goes,
         HandshakeStored, ClientStream, DownConserved, UpConserved, ErrorIsFinal, Refusal;
    RelayOps(w);
    var v := WithFrame(cfg, w, e);
    assert v.s == w.s;
    SameGoing(w, v, side);
    match e
    case Fail(op) => FailureGoesOn(cfg, v, op, side);
    case Transfer(op, k) => TransferGoesOn(cfg, v, op, k, side);
    case Receive(op, data) => DataGoesOn(cfg, v, op, data, side);
    case Sent(op) => GoesOn(v, op, if op.WriteClient? then ReadBackend else ReadClient, Next(cfg, w, e), side);
    case Issue => GoesOn(v, IssueClientRead, ReadClient, Next(cfg, w, e), side);
    case Connected => assert false;
  }

  lemma SameGoing(w: World, w': World, side: Side)
    requires w'.s == w.s && Goes(w, side)
    ensures Goes(w', side)
  {
  }

  lemma RelayOps(w: World)
    requires OnePerSide(w) && w.relay
    ensures forall op <- w.s.pending :: SideOf(op) != Setup
  {
  }

  /** The relay begins in both directions. */
  lemma RelayBegins(cfg: Config, w: World, e: Event, side: Side)
    requires Sized(w.s) && Enabled(cfg, w, e) && !w.relay && Next(cfg, w, e).relay && side != Setup
    ensures Goes(Next(cfg, w, e), side)
  {
    hide Route, Picked, Frame, Message.Text, SendError, Overwritten, Refusal, Goes;
    assert e.Transfer? && e.op.WriteHandshake?;
    var w' := Next(cfg, w, e);
    GoesByOp(w', ReadBackend);
    GoesByOp(w', IssueClientRead);
  }

  ghost predicate FailedBefore(es: seq<Event>, j: nat, side: Side) {
    exists i :: 0 <= i < |es| && i < j && FailsOn(es[i], side)
  }

  /** In every run: a relay direction has ended if and only if one of its own operations has failed. */
  lemma EndedByError(cfg: Config, ws: seq<World>, es: seq<Event>, j: nat, side: Side)
    requires IsRun(cfg, ws, es) && j < |ws| && ws[j].relay && side != Setup
    ensures DirectionEnded(ws[j], side) <==> FailedBefore(es, j, side)
  {
    hide Next, Invariant, Goes, Enabled;
    EndedIs(ws[j], side);
    if !FailedBefore(es, j, side) {
      KeepsGoing(cfg, ws, es, j, side);
    } else {
      var i :| 0 <= i < |es| && i < j && FailsOn(es[i], side);
      assert IsStep(cfg, ws[i], es[i], ws[i + 1]);
      RunInvariant(cfg, ws, es, i);
      FailureEnds(cfg, ws[i], es[i].op);
      EndedForGood(cfg, ws, es, i + 1, j, side);
    }
  }

  lemma FailureEnds(cfg: Config, w: World, op: Op)
    requires Invariant(cfg, w) && Enabled(cfg, w, Fail(op)) && SideOf(op) != Setup
    ensures DirectionEnded(Next(cfg, w, Fail(op)), SideOf(op))
  {
    hide HandshakeStored, ClientStream, DownConserved, UpConserved, ErrorIsFinal, Route, Picked, Frame, Message.Text,
         SendError, Overwritten;
    RelayPending(w, op);
  }

  lemma {:induction false} KeepsGoing(cfg: Config, ws: seq<World>, es: seq<Event>, j: nat, side: Side)
    requires IsRun(cfg, ws, es) && j < |ws| && ws[j].relay && side != Setup && !FailedBefore(es, j, side)
    ensures Goes(ws[j], side)
  {
    hide Next, Invariant, Goes;
    assert j > 0;
    assert IsStep(cfg, ws[j - 1], es[j - 1], ws[j]);
    assert !FailsOn(es[j - 1], side);
    RunInvariant(cfg, ws, es, j - 1);
    if ws[j - 1].relay {
      KeepsGoing(cfg, ws, es, j - 1, side);
      RelayGoesOn(cfg, ws[j - 1], es[j - 1], side);
    } else {
      RelayBegins(cfg, ws[j - 1], es[j - 1], side);
    }
  }

  // ---------------------------------------------------------------- the set-up stops for a reason

  /** The events that end a session before its relay: the greeting or the handshake fails, the error frame has been
      written or could not be, or a length mark in the handshake has no meaning. */
  predicate EndsSetup(cfg: Config, e: Event) {
    match e
    case Fail(op) => op.WriteGreeting? || op.ReadHandshake? || op.WriteError?
    case Transfer(op, _) => op.WriteError?
    case Receive(op, data) => op.ReadHandshake? && Route(data, cfg.elements, cfg.default).Unspecified?
    case _ => false
  }

  function OpOf(e: Event): Op {
    match e
    case Fail(op) => op
    case Transfer(op, _) => op
    case Receive(op, _) => op
    case Connected => Connect
    case Sent(op) => op
    case Issue => IssueClientRead
  }

  lemma SetupOnly(cfg: Config, w: World, e: Event)
    requires OnePerSide(w) && Enabled(cfg, w, e) && !w.relay
    ensures SideOf(OpOf(e)) == Setup && w.s.pending == {OpOf(e)}
  {
    SetupAlone(w, OpOf(e));
  }

  lemma SetupFails(cfg: Config, w: World, op: Op)
    requires Sized(w.s) && w.s.pending == {op} && SideOf(op) == Setup
    ensures Failed(cfg, w, op).s.pending == {} <==> EndsSetup(cfg, Fail(op))
    ensures Failed(cfg, w, op).relay == w.relay
  {
    hide Route, Picked, Frame, Message.Text, Overwritten;
    assert Completed(w.s, op).pending == {};
  }

  lemma SetupTransfers(cfg: Config, w: World, op: Op, k: nat)
    requires Sized(w.s) && Enabled(cfg, w, Transfer(op, k)) && w.s.pending == {op} && SideOf(op) == Setup
    ensures Transferred(cfg, w, op, k).s.pending == {} <==> EndsSetup(cfg, Transfer(op, k))
    ensures EndsSetup(cfg, Transfer(op, k)) ==> Transferred(cfg, w, op, k).relay == w.relay
  {
    hide Route, Picked, Frame, Message.Text, Overwritten;
    assert Completed(w.s, op).pending == {};
    if op.WriteHandshake? {
      assert ReadBackend in Transferred(cfg, w, op, k).s.pending;
    }
    if op.WriteGreeting? {
      assert ReadHandshake in Transferred(cfg, w, op, k).s.pending;
    }
  }

  lemma SetupReceives(cfg: Config, w: World, op: Op, data: string)
    requires Sized(w.s) && Enabled(cfg, w, Receive(op, data)) && w.s.pending == {op} && SideOf(op) == Setup
    ensures Received(cfg, w, op, data).s.pending == {} <==> EndsSetup(cfg, Receive(op, data))
    ensures Received(cfg, w, op, data).relay == w.relay
  {
    hide Route, Picked, Frame, Message.Text;
    assert Completed(w.s, op).pending == {};
    if op.ReadHandshake? {
      assert Overwritten(w.s.cltBuffer, data)[..|data|] == data;
      var s := Received(cfg, w, op, data).s;
      assert s.pending == {} || s.pending == {Connect} || exists n :: WriteError(n) in s.pending;
    } else {
      assert WriteHandshake in Received(cfg, w, op, data).s.pending;
    }
  }

  lemma ConnectedGoesOn(cfg: Config)
    ensures !EndsSetup(cfg, Connected)
  {
  }

  lemma SetupStep(cfg: Config, w: World, e: Event)
    requires Sized(w.s) && OnePerSide(w) && Enabled(cfg, w, e) && !w.relay
    ensures Next(cfg, w, e).s.pending == {} <==> EndsSetup(cfg, e)
    ensures EndsSetup(cfg, e) ==> !Next(cfg, w, e).relay
  {
    hide Failed, Transferred, Received, Route, Picked, Frame, Message.Text, SendError, Overwritten, Refusal, EndsSetup;
    SetupOnly(cfg, w, e);
    var v := WithFrame(cfg, w, e);
    if e.Fail? {
      SetupFails(cfg, v, e.op);
    } else if e.Transfer? {
      SetupTransfers(cfg, v, e.op, e.k);
    } else if e.Receive? {
      SetupReceives(cfg, v, e.op, e.data);
    } else {
      assert e.Connected?;
      assert ReadChallenge in Next(cfg, w, e).s.pending;
      ConnectedGoesOn(cfg);
    }
  }

  ghost predicate StoppedBefore(cfg: Config, es: seq<Event>, j: nat) {
    exists i :: 0 <= i < |es| && i < j && EndsSetup(cfg, es[i])
  }

  /** In every run: before the relay nothing is pending if and only if one of those events has happened. */
  lemma {:induction false} StopsForAReason(cfg: Config, ws: seq<World>, es: seq<Event>, j: nat)
    requires IsRun(cfg, ws, es) && j < |ws|
    ensures !ws[j].relay && ws[j].s.pending == {} <==> StoppedBefore(cfg, es, j)
  {
    hide Next, Invariant, EndsSetup;
    if j > 0 {
      var w, e := ws[j - 1], es[j - 1];
      assert IsStep(cfg, w, e, ws[j]);
      StopsForAReason(cfg, ws, es, j - 1);
      RunInvariant(cfg, ws, es, j - 1);
      InvariantGives(cfg, w);
      StoppedNext(cfg, es, j);
      if w.relay {
        RelayStays(cfg, w, e);
      } else {
        assert OpOf(e) in w.s.pending;
        SetupStep(cfg, w, e);
      }
    }
  }

  lemma StoppedNext(cfg: Config, es: seq<Event>, j: nat)
    requires 0 < j <= |es|
    ensures StoppedBefore(cfg, es, j) <==> StoppedBefore(cfg, es, j - 1) || EndsSetup(cfg, es[j - 1])
  {
    hide EndsSetup;
  }

  lemma RelayStays(cfg: Config, w: World, e: Event)
    requires Sized(w.s) && OnePerSide(w) && Enabled(cfg, w, e) && w.relay
    ensures Next(cfg, w, e).relay && !EndsSetup(cfg, e)
  {
    hide Route, Picked, Frame, Message.Text, SendError, Overwritten, Refusal;
    RelayOps(w);
    assert OpOf(e) in w.s.pending;
  }

  // ---------------------------------------------------------------- every run can go on

  /** The run `ws'` begins with the run `ws`. */
  ghost predicate Continues(ws: seq<World>, es: seq<Event>, ws': seq<World>, es': seq<Event>) {
    ws <= ws' && es <= es'
  }

  function Last(ws: seq<World>): World
    requires ws != []
  {
    ws[|ws| - 1]
  }

  lemma LastInvariant(cfg: Config, ws: seq<World>, es: seq<Event>)
    requires IsRun(cfg, ws, es)
    ensures ws != [] && Invariant(cfg, Last(ws)) && Sized(Last(ws).s) && OnePerSide(Last(ws))
  {
    hide Invariant;
    RunInvariant(cfg, ws, es, |ws| - 1);
    InvariantGives(cfg, Last(ws));
  }

  /** Whatever is enabled at the end of a run may happen. */
  lemma OneMore(cfg: Config, ws: seq<World>, es: seq<Event>, e: Event, w': World)
    returns (ws': seq<World>, es': seq<Event>)
    requires IsRun(cfg, ws, es) && IsStep(cfg, Last(ws), e, w')
    ensures IsRun(cfg, ws', es') && Continues(ws, es, ws', es') && Last(ws') == w'
  {
    hide IsStep;
    ws', es' := ws + [w'], es + [e];
    forall i | 0 <= i < |es'|
      ensures IsStep(cfg, ws'[i], es'[i], ws'[i + 1])
    {
      if i < |es| {
        assert IsStep(cfg, ws[i], es[i], ws[i + 1]);
      }
    }
  }

  /** Everything that one step of a direction leaves alone. */
  ghost predicate SameButDown(w: World, w': World) {
    && SameSideOps(w.s.pending, w'.s.pending, Up)
    && w'.fromClient == w.fromClient && w'.toBackend == w.toBackend && w'.relay == w.relay
    && w'.greeted == w.greeted && w'.challenge == w.challenge
    && w'.handshakeSent == w.handshakeSent && w'.s.handshakeSize == w.s.handshakeSize
  }

  ghost predicate SameButUp(w: World, w': World) {
    && SameSideOps(w.s.pending, w'.s.pending, Down)
    && w'.fromBackend == w.fromBackend && w'.toClient == w.toClient && w'.relay == w.relay
    && w'.greeted == w.greeted && w'.challenge == w.challenge
    && w'.handshakeSent == w.handshakeSent && w'.s.handshakeSize == w.s.handshakeSize
  }

  /** A write to the client goes on to its end, and the backend is read again. */
  lemma ClientWriting(cfg: Config, w: World, n: nat, sent: nat) returns (w1: World, w2: World)
    requires Sized(w.s) && WriteClient(n, sent) in w.s.pending
    ensures sent <= n && IsStep(cfg, w, Transfer(WriteClient(n, sent), n - sent), w1)
    ensures IsStep(cfg, w1, Sent(WriteClient(n, n)), w2)
    ensures SameButDown(w, w2) && w2.fromBackend == w.fromBackend && ReadBackend in w2.s.pending
  {
    hide Route, Picked, Frame, Message.Text, SendError, Overwritten;
    w1 := Next(cfg, w, Transfer(WriteClient(n, sent), n - sent));
    assert WriteClient(n, n) in w1.s.pending;
    w2 := Next(cfg, w1, Sent(WriteClient(n, n)));
  }

  lemma BackendWriting(cfg: Config, w: World, n: nat, sent: nat) returns (w1: World, w2: World)
    requires Sized(w.s) && WriteBackend(n, sent) in w.s.pending
    ensures sent <= n && IsStep(cfg, w, Transfer(WriteBackend(n, sent), n - sent), w1)
    ensures IsStep(cfg, w1, Sent(WriteBackend(n, n)), w2)
    ensures SameButUp(w, w2) && w2.fromClient == w.fromClient && ReadClient in w2.s.pending
  {
    hide Route, Picked, Frame, Message.Text, SendError, Overwritten;
    w1 := Next(cfg, w, Transfer(WriteBackend(n, sent), n - sent));
    assert WriteBackend(n, n) in w1.s.pending;
    w2 := Next(cfg, w1, Sent(WriteBackend(n, n)));
  }

  lemma BackendChunk(cfg: Config, w: World, chunk: string) returns (w': World)
    requires Sized(w.s) && ReadBackend in w.s.pending && |chunk| <= BUFFER_SIZE
    ensures IsStep(cfg, w, Receive(ReadBackend, chunk), w')
    ensures SameButDown(w, w') && w'.fromBackend == w.fromBackend + chunk && WriteClient(|chunk|, 0) in w'.s.pending
  {
    hide Route, Picked, Frame, Message.Text, SendError, Overwritten;
    w' := Next(cfg, w, Receive(ReadBackend, chunk));
  }

  lemma ClientChunk(cfg: Config, w: World, chunk: string) returns (w': World)
    requires Sized(w.s) && ReadClient in w.s.pending && |chunk| <= BUFFER_SIZE
    ensures IsStep(cfg, w, Receive(ReadClient, chunk), w')
    ensures SameButUp(w, w') && w'.fromClient == w.fromClient + chunk && WriteBackend(|chunk|, 0) in w'.s.pending
  {
    hide Route, Picked, Frame, Message.Text, SendError, Overwritten;
    w' := Next(cfg, w, Receive(ReadClient, chunk));
  }

  lemma ClientIssue(cfg: Config, w: World) returns (w': World)
    requires Sized(w.s) && IssueClientRead in w.s.pending
    ensures IsStep(cfg, w, Issue, w')
    ensures SameButUp(w, w') && w'.fromClient == w.fromClient && ReadClient in w'.s.pending
  {
    hide Route, Picked, Frame, Message.Text, SendError, Overwritten;
    w' := Next(cfg, w, Issue);
  }

  lemma DownOps(w: World)
    requires Goes(w, Down)
    ensures ReadBackend in w.s.pending || exists n: nat, sent: nat :: WriteClient(n, sent) in w.s.pending
  {
    var op :| op in w.s.pending && SideOf(op) == Down;
    assert op == ReadBackend || op == WriteClient(op.n, op.sent);
  }

  lemma UpOps(w: World)
    requires Goes(w, Up)
    ensures ReadClient in w.s.pending || IssueClientRead in w.s.pending
         || exists n: nat, sent: nat :: WriteBackend(n, sent) in w.s.pending
  {
    var op :| op in w.s.pending && SideOf(op) == Up;
    assert op == ReadClient || op == IssueClientRead || op == WriteBackend(op.n, op.sent);
  }

  /** A run in which the direction to the client has not failed can go on until the backend is read again. */
  lemma BackendIsRead(cfg: Config, ws: seq<World>, es: seq<Event>) returns (ws': seq<World>, es': seq<Event>)
    requires IsRun(cfg, ws, es) && Goes(Last(ws), Down)
    ensures IsRun(cfg, ws', es') && Continues(ws, es, ws', es')
    ensures SameButDown(Last(ws), Last(ws')) && Last(ws').fromBackend == Last(ws).fromBackend
    ensures ReadBackend in Last(ws').s.pending
  {
    hide IsRun, IsStep, Goes, Invariant, OnePerSide, Sized;
    LastInvariant(cfg, ws, es);
    ws', es' := ws, es;
    DownOps(Last(ws));
    if ReadBackend !in Last(ws).s.pending {
      var n: nat, sent: nat :| WriteClient(n, sent) in Last(ws).s.pending;
      var w1, w2 := ClientWriting(cfg, Last(ws), n, sent);
      ws', es' := OneMore(cfg, ws, es, Transfer(WriteClient(n, sent), n - sent), w1);
      ws', es' := OneMore(cfg, ws', es', Sent(WriteClient(n, n)), w2);
    }
  }

  lemma ClientIsRead(cfg: Config, ws: seq<World>, es: seq<Event>) returns (ws': seq<World>, es': seq<Event>)
    requires IsRun(cfg, ws, es) && Goes(Last(ws), Up)
    ensures IsRun(cfg, ws', es') && Continues(ws, es, ws', es')
    ensures SameButUp(Last(ws), Last(ws')) && Last(ws').fromClient == Last(ws).fromClient
    ensures ReadClient in Last(ws').s.pending
  {
    hide IsRun, IsStep, Goes, Invariant, OnePerSide, Sized;
    LastInvariant(cfg, ws, es);
    ws', es' := ws, es;
    UpOps(Last(ws));
    if IssueClientRead in Last(ws).s.pending {
      var w1 := ClientIssue(cfg, Last(ws));
      ws', es' := OneMore(cfg, ws, es, Issue, w1);
    } else if ReadClient !in Last(ws).s.pending {
      var n: nat, sent: nat :| WriteBackend(n, sent) in Last(ws).s.pending;
      var w1, w2 := BackendWriting(cfg, Last(ws), n, sent);
      ws', es' := OneMore(cfg, ws, es, Transfer(WriteBackend(n, sent), n - sent), w1);
      ws', es' := OneMore(cfg, ws', es', Sent(WriteBackend(n, n)), w2);
    }
  }

  function Concat(chunks: seq<string>): string {
    if chunks == [] then "" else chunks[0] + Concat(chunks[1..])
  }

  predicate Chunks(chunks: seq<string>) {
    forall i :: 0 <= i < |chunks| ==> 0 < |chunks[i]| <= BUFFER_SIZE
  }

  lemma NothingHeldDown(cfg: Config, ws: seq<World>, es: seq<Event>)
    requires IsRun(cfg, ws, es) && Last(ws).relay && ReadBackend in Last(ws).s.pending
    ensures var w := Last(ws); w.challenge <= |w.fromBackend| && BehindGreeting(w) == w.fromBackend[w.challenge..]
  {
    hide Invariant, Next;
    LastInvariant(cfg, ws, es);
    ReadingHoldsNothing(cfg, Last(ws));
    DownwardConservation(cfg, ws, es, |ws| - 1, "");
    assert BehindGreeting(Last(ws)) + "" == BehindGreeting(Last(ws));
  }

  lemma ReadingHoldsNothing(cfg: Config, w: World)
    requires Invariant(cfg, w) && w.relay
    ensures ReadBackend in w.s.pending ==> DownRest(w, "")
    ensures ReadClient in w.s.pending ==> UpRest(w, "")
  {
    hide HandshakeStored, ClientStream, ErrorIsFinal, BehindGreeting;
    if ReadBackend in w.s.pending {
      RelayPending(w, ReadBackend);
    }
    if ReadClient in w.s.pending {
      RelayPending(w, ReadClient);
    }
  }

  lemma NothingHeldUp(cfg: Config, ws: seq<World>, es: seq<Event>)
    requires IsRun(cfg, ws, es) && Last(ws).relay && ReadClient in Last(ws).s.pending
    ensures var w := Last(ws);
            && w.handshakeSent <= w.s.handshakeSize <= |w.fromClient|
            && w.toBackend == w.fromClient[..w.handshakeSent] + w.fromClient[w.s.handshakeSize..]
  {
    hide Invariant, Next;
    LastInvariant(cfg, ws, es);
    ReadingHoldsNothing(cfg, Last(ws));
    UpwardConservation(cfg, ws, es, |ws| - 1, "");
    assert Last(ws).toBackend + "" == Last(ws).toBackend;
  }

  /** Every run in which the direction to the client has not failed has a continuation in which the backend sends any
      further chunks and the client gets all that the backend has sent behind its first chunk. */
  lemma {:induction false} DownFlows(cfg: Config, ws: seq<World>, es: seq<Event>, chunks: seq<string>)
    returns (ws': seq<World>, es': seq<Event>)
    requires IsRun(cfg, ws, es) && Last(ws).relay && !DirectionEnded(Last(ws), Down) && Chunks(chunks)
    ensures IsRun(cfg, ws', es') && Continues(ws, es, ws', es')
    ensures SameButDown(Last(ws), Last(ws')) && ReadBackend in Last(ws').s.pending
    ensures var w := Last(ws');
            && w.fromBackend == Last(ws).fromBackend + Concat(chunks)
            && w.challenge <= |w.fromBackend| && BehindGreeting(w) == w.fromBackend[w.challenge..]
    decreases |chunks|
  {
    hide IsRun, IsStep, Goes, Invariant, OnePerSide, Sized, BehindGreeting;
    LastInvariant(cfg, ws, es);
    EndedIs(Last(ws), Down);
    ws', es' := BackendIsRead(cfg, ws, es);
    if chunks != [] {
      LastInvariant(cfg, ws', es');
      var w1 := BackendChunk(cfg, Last(ws'), chunks[0]);
      ws', es' := OneMore(cfg, ws', es', Receive(ReadBackend, chunks[0]), w1);
      GoesByOp(w1, WriteClient(|chunks[0]|, 0));
      EndedIs(w1, Down);
      ws', es' := DownFlows(cfg, ws', es', chunks[1..]);
      assert Last(ws).fromBackend + chunks[0] + Concat(chunks[1..]) == Last(ws).fromBackend + Concat(chunks);
    } else {
      NothingHeldDown(cfg, ws', es');
      assert Last(ws).fromBackend + "" == Last(ws).fromBackend;
    }
  }

  /** The same towards the backend: it gets all that the client sends behind the handshake. */
  lemma {:induction false} UpFlows(cfg: Config, ws: seq<World>, es: seq<Event>, chunks: seq<string>)
    returns (ws': seq<World>, es': seq<Event>)
    requires IsRun(cfg, ws, es) && Last(ws).relay && !DirectionEnded(Last(ws), Up) && Chunks(chunks)
    ensures IsRun(cfg, ws', es') && Continues(ws, es, ws', es')
    ensures SameButUp(Last(ws), Last(ws')) && ReadClient in Last(ws').s.pending
    ensures var w := Last(ws');
            && w.fromClient == Last(ws).fromClient + Concat(chunks)
            && w.handshakeSent <= w.s.handshakeSize <= |w.fromClient|
            && w.toBackend == w.fromClient[..w.handshakeSent] + w.fromClient[w.s.handshakeSize..]
    decreases |chunks|
  {
    hide IsRun, IsStep, Goes, Invariant, OnePerSide, Sized;
    LastInvariant(cfg, ws, es);
    EndedIs(Last(ws), Up);
    ws', es' := ClientIsRead(cfg, ws, es);
    if chunks != [] {
      LastInvariant(cfg, ws', es');
      var w1 := ClientChunk(cfg, Last(ws'), chunks[0]);
      ws', es' := OneMore(cfg, ws', es', Receive(ReadClient, chunks[0]), w1);
      GoesByOp(w1, WriteBackend(|chunks[0]|, 0));
      EndedIs(w1, Up);
      ws', es' := UpFlows(cfg, ws', es', chunks[1..]);
      assert Last(ws).fromClient + chunks[0] + Concat(chunks[1..]) == Last(ws).fromClient + Concat(chunks);
    } else {
      NothingHeldUp(cfg, ws', es');
      assert Last(ws).fromClient + "" == Last(ws).fromClient;
    }
  }

  // ---------------------------------------------------------------- whole conversations

  /** What the two ends send during the relay, in the order in which it arrives. */
  datatype Parcel = ToClient(data: string) | ToBackend(data: string)

  function Downs(parcels: seq<Parcel>): string {
    if parcels == [] then "" else (if parcels[0].ToClient? then parcels[0].data else "") + Downs(parcels[1..])
  }

  function Ups(parcels: seq<Parcel>): string {
    if parcels == [] then "" else (if parcels[0].ToBackend? then parcels[0].data else "") + Ups(parcels[1..])
  }

  predicate Parcels(parcels: seq<Parcel>) {
    forall i :: 0 <= i < |parcels| ==> 0 < |parcels[i].data| <= BUFFER_SIZE
  }

  lemma SideKept(w: World, w': World, side: Side)
    requires SameSideOps(w.s.pending, w'.s.pending, side) && w.relay && w'.relay && !DirectionEnded(w, side)
    ensures !DirectionEnded(w', side)
  {
  }

  lemma ReadsGo(w: World)
    ensures ReadBackend in w.s.pending ==> !DirectionEnded(w, Down)
    ensures ReadClient in w.s.pending ==> !DirectionEnded(w, Up)
  {
  }

  /** A relay in which neither direction has failed can deliver whatever the two ends send, in any order. */
  lemma {:induction false} ParcelsFlow(cfg: Config, ws: seq<World>, es: seq<Event>, parcels: seq<Parcel>)
    returns (ws': seq<World>, es': seq<Event>)
    requires IsRun(cfg, ws, es) && Last(ws).relay && Parcels(parcels)
    requires !DirectionEnded(Last(ws), Down) && !DirectionEnded(Last(ws), Up)
    ensures IsRun(cfg, ws', es') && Continues(ws, es, ws', es')
    ensures var w, w' := Last(ws), Last(ws');
            && w'.fromBackend == w.fromBackend + Downs(parcels) && w'.fromClient == w.fromClient + Ups(parcels)
            && w'.challenge == w.challenge && w'.greeted == w.greeted && w'.handshakeSent == w.handshakeSent
            && w'.s.handshakeSize == w.s.handshakeSize && w'.relay
            && w'.challenge <= |w'.fromBackend| && w'.handshakeSent <= w'.s.handshakeSize <= |w'.fromClient|
            && BehindGreeting(w') == w'.fromBackend[w'.challenge..]
            && w'.toBackend == w'.fromClient[..w'.handshakeSent] + w'.fromClient[w'.s.handshakeSize..]
    decreases |parcels|
  {
    hide IsRun, DirectionEnded, SameSideOps;
    LastInvariant(cfg, ws, es);
    if parcels == [] {
      ws', es' := DownFlows(cfg, ws, es, []);
      SideKept(Last(ws), Last(ws'), Up);
      ws', es' := UpFlows(cfg, ws', es', []);
      assert Last(ws).fromBackend + "" == Last(ws).fromBackend && Last(ws).fromClient + "" == Last(ws).fromClient;
    } else {
      var chunk := [parcels[0].data];
      assert parcels[0].data + Concat(chunk[1..]) == parcels[0].data;
      if parcels[0].ToClient? {
        ws', es' := DownFlows(cfg, ws, es, chunk);
        SideKept(Last(ws), Last(ws'), Up);
      } else {
        ws', es' := UpFlows(cfg, ws, es, chunk);
        SideKept(Last(ws), Last(ws'), Down);
      }
      ReadsGo(Last(ws'));
      ws', es' := ParcelsFlow(cfg, ws', es', parcels[1..]);
      Regrouped(Last(ws).fromBackend, if parcels[0].ToClient? then parcels[0].data else "", Downs(parcels[1..]));
      Regrouped(Last(ws).fromClient, if parcels[0].ToBackend? then parcels[0].data else "", Ups(parcels[1..]));
    }
  }

  lemma Regrouped(a: string, b: string, c: string)
    ensures a + b + c == a + (b + c) && (b == "" ==> a + b == a)
  {
  }

  /** The set-up of a session whose writes take all they are given. */
  lemma SetUp(cfg: Config, w0: World, data: string, chunk: string) returns (ws: seq<World>, es: seq<Event>)
    requires Initial(w0) && |data| <= BUFFER_SIZE && |chunk| <= BUFFER_SIZE
    requires var route := Route(data, cfg.elements, cfg.default); route.Forward? && cfg.isAddress(route.node.address)
    ensures IsRun(cfg, ws, es) && ws[0] == w0
    ensures var w := Last(ws);
            && w.relay && w.s.pending == {ReadBackend, ReadClient} && w.fromClient == data && w.fromBackend == chunk
            && w.greeted == |cfg.greeting| && w.challenge == |chunk|
            && w.handshakeSent == w.s.handshakeSize == |data|
  {
    hide Next, Route, Picked, IsStep, Sized;
    var w1 := SessionLosses.Greeted(cfg, w0, |cfg.greeting|);
    var w2 := SessionLosses.Routed(cfg, w1, data);
    var w3, w4 := SessionLosses.Challenged(cfg, w2, chunk);
    var w5, w6 := SessionLosses.Forwarding(cfg, w4, |data|);
    ws, es := [w0, w1, w2, w3, w4, w5, w6],
      [Transfer(WriteGreeting, |cfg.greeting|), Receive(ReadHandshake, data), Connected, Receive(ReadChallenge, chunk),
       Transfer(WriteHandshake, |data|), Issue];
    assert "" + chunk == chunk;
  }

  /** A session serves: for every handshake that has a backend, every first chunk of it and whatever the two ends send
      then, there is a run in which the client gets the greeting and all that the backend sends behind its first chunk,
      and the backend gets the handshake and all that the client sends behind it. */
  lemma Serves(cfg: Config, w0: World, data: string, chunk: string, parcels: seq<Parcel>)
    returns (ws: seq<World>, es: seq<Event>)
    requires Initial(w0) && |data| <= BUFFER_SIZE && |chunk| <= BUFFER_SIZE && Parcels(parcels)
    requires var route := Route(data, cfg.elements, cfg.default); route.Forward? && cfg.isAddress(route.node.address)
    ensures IsRun(cfg, ws, es) && ws[0] == w0
    ensures var w := Last(ws);
            && w.fromClient == data + Ups(parcels) && w.fromBackend == chunk + Downs(parcels)
            && w.toClient == cfg.greeting + Downs(parcels) && w.toBackend == data + Ups(parcels)
  {
    hide Next, Route, Picked, IsStep, Sized, BehindGreeting;
    ws, es := SetUp(cfg, w0, data, chunk);
    ReadsGo(Last(ws));
    ws, es := ParcelsFlow(cfg, ws, es, parcels);
    WhatTheClientGets(cfg, ws, es, |ws| - 1);
    var w := Last(ws);
    assert w.fromBackend[|chunk|..] == Downs(parcels);
    assert w.fromClient[..|data|] == data && w.fromClient[|data|..] == Ups(parcels);
  }
}
