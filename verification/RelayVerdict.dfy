/** How each side ends, and what it says and shuts down as it does, as a function of what it met:
    the frames it received and the events that befell it, whoever is at the other end. */
module RelayVerdict {
  import opened Bytes
  import opened Channel
  import opened Frames
  import opened Relay
  import opened RelayInvariant
  import opened RelayTheorems
  import opened RelayAlone

  // ----- what the server met

  /** Events other than frames: resolving or connecting failed, a write to the target failed, no
      frame came in time, the client's stream broke, or it ended. */
  datatype Met = Met(dialFailed: bool, writeFailed: bool, timedOut: bool, broke: bool, ended: bool)

  function Nothing(): Met {
    Met(false, false, false, false, false)
  }

  function Note(n: Met, s: State, m: ServerMove): Met {
    if !m.ServerDoes? then n
    else
      match m.a
      case DialFails => n.(dialFailed := true)
      case ServerWriteFails => n.(writeFailed := true)
      case ServerTimeout => n.(timedOut := true)
      case ServerSeesEnd => if s.up.end.Broken? then n.(broke := true) else n.(ended := true)
      case _ => n
  }

  /** What the server met over a run. */
  function ServerMet(s: State, moves: seq<ServerMove>, n: Met): Met
    requires ServerLegal(s, moves)
    decreases moves
  {
    if moves == [] then n else ServerMet(ServerNext(s, moves[0]), moves[1..], Note(n, s, moves[0]))
  }

  predicate NotOpen(got: seq<ClientFrame>) {
    got != [] && !got[0].COpen?
  }

  predicate HasReset(got: seq<ClientFrame>) {
    exists i :: 1 <= i < |got| && got[i].CReset?
  }

  /** A second Open or an empty frame. */
  predicate HasStray(got: seq<ClientFrame>) {
    exists i :: 1 <= i < |got| && (got[i].COpen? || got[i].CEmpty?)
  }

  /** The server will answer the Open, or what came in its place, with a refusal. */
  predicate Refuses(got: seq<ClientFrame>, n: Met) {
    NotOpen(got) || n.dialFailed || n.writeFailed
  }

  /** What a server that never opened the tunnel sends, all told. */
  function ClosedOutput(got: seq<ClientFrame>, n: Met): seq<ServerFrame> {
    if Refuses(got, n) then [SOpenResult(false)]
    else if n.timedOut || n.broke then [SReset]
    else []
  }

  /** What the main loop of an opened tunnel sends after the OpenResult, all told: its pongs, and a
      Reset unless the client ended its stream or reset the tunnel itself. */
  function OpenedOutput(got: seq<ClientFrame>, n: Met): seq<ServerFrame> {
    Answers(got) + if n.ended || HasReset(got) then [] else [SReset]
  }

  /** The target has been told that no more will come. */
  ghost predicate ShutFor(got: seq<ClientFrame>, n: Met) {
    HasHalfClose(got) || HasReset(got) || n.broke || n.ended
  }

  /** The main loop is still at work and has met nothing that ends it. */
  predicate Working(m: ServerMain) {
    !m.SDone? && !(m.Sending? && (m.next.BreakLoop? || m.next.Return?))
  }

  /** Something has ended the main loop of an opened tunnel. */
  predicate Ending(got: seq<ClientFrame>, n: Met) {
    n.timedOut || n.broke || n.ended || n.writeFailed || HasReset(got) || HasStray(got)
  }

  ghost predicate VerdictInv(sv: Server, sent: seq<ServerFrame>, got: seq<ClientFrame>, n: Met, flowing: bool) {
    var spawned := !sv.reader.Idle?;
    && (Working(sv.main) ==> n == Nothing() && !NotOpen(got) && !HasReset(got) && !HasStray(got))
    && (!Working(sv.main) && spawned ==> Ending(got, n) && !n.dialFailed && !NotOpen(got))
    && (sv.shut <==> spawned && ShutFor(got, n))
    && match sv.main
       case Sending(f, Return) => [f] == ClosedOutput(got, n)
       case Sending(_, BreakLoop) => spawned && !n.ended && !HasReset(got)
       case SDone =>
         if spawned then flowing ==> sv.fromMain == OpenedOutput(got, n)
         else (flowing ==> sent == ClosedOutput(got, n)) && (ClosedOutput(got, n) == [] ==> n.ended)
       case _ => true
  }

  ghost predicate VerdictHolds(s: State, n: Met) {
    ServerHolds(s) && VerdictInv(s.sv, s.down.log, Got(s.up), n, s.down.end.Flowing?)
  }

  lemma VerdictStarts(cfg: Config)
    ensures VerdictHolds(ServerStart(cfg), Nothing())
  {
    ServerStarts(cfg);
  }

  // ----- each move

  lemma SnocHas(got: seq<ClientFrame>, f: ClientFrame)
    requires got != []
    ensures HasReset(got + [f]) <==> HasReset(got) || f.CReset?
    ensures HasStray(got + [f]) <==> HasStray(got) || f.COpen? || f.CEmpty?
    ensures HasHalfClose(got + [f]) <==> HasHalfClose(got) || f.CHalfClose?
    ensures NotOpen(got + [f]) <==> NotOpen(got)
  {
    var more := got + [f];
    assert more[|got|] == f;
    assert forall i :: 0 <= i < |got| ==> more[i] == got[i];
  }

  lemma OneHas(f: ClientFrame)
    ensures !HasReset([f]) && !HasStray([f]) && (HasHalfClose([f]) <==> f.CHalfClose?)
    ensures !HasReset([]) && !HasStray([]) && !HasHalfClose([])
  {
    assert [f][0] == f;
  }

  lemma ReceiveVerdict(sv: Server, sent: seq<ServerFrame>, got: seq<ClientFrame>, n: Met, flowing: bool, f: ClientFrame)
    requires VerdictInv(sv, sent, got, n, flowing) && (flowing ==> PongInv(sv, got))
    requires sv.main.AwaitOpen? ==> got == [] && sent == [] && sv.reader.Idle?
    requires sv.main.SWaiting? ==> got != [] && !sv.reader.Idle?
    requires sv.main.AwaitOpen? || sv.main.SWaiting?
    ensures VerdictInv(ServerHandles(sv, f), sent, got + [f], n, flowing)
  {
    hide HasReset, HasStray, HasHalfClose;
    OneHas(f);
    AnswersSnoc(got, f);
    if got == [] {
      assert got + [f] == [f];
    } else {
      SnocHas(got, f);
    }
  }

  lemma LocalVerdict(s: State, n: Met, a: Action)
    requires VerdictHolds(s, n) && ServerEnabled(s, a) && !TargetTask(a)
    requires !a.ServerReceive? && !a.ServerSend? && !a.ServerSendFails?
    ensures var s' := ServerApply(s, a);
            VerdictInv(s'.sv, s.down.log, Got(s.up), Note(n, s, ServerDoes(a)), s.down.end.Flowing?)
  {
    hide Fifo, ReaderInv, MainInv, Answers, StopInv, HasReset, HasStray, HasHalfClose;
    OpeningIsIdle(s.cfg, s.sv, s.down.log, Got(s.up), s.down.end.Flowing?);
  }

  /** Which phases come before the reader is spawned, and what has been sent by then. */
  lemma OpeningIsIdle(cfg: Config, sv: Server, sent: seq<ServerFrame>, got: seq<ClientFrame>, flowing: bool)
    requires MainInv(sv, sent, got) && ReaderInv(cfg, sv, sent, flowing)
    ensures sv.main.AwaitOpen? || sv.main.Dialing? || sv.main.WritingFirst? ==> sv.reader.Idle? && sent == [] && !sv.shut
    ensures sv.main.Sending? && (sv.main.next.StartRelay? || sv.main.next.Return?) ==> sv.reader.Idle? && sent == [] && !sv.shut
    ensures sv.main.Sending? && sv.main.next.StartRelay? ==> |got| == 1 && got[0].COpen?
    ensures sv.main.Sending? && sv.main.next.BreakLoop? ==> !sv.reader.Idle? && sv.main.frame == SReset
    ensures sv.main.Sending? && sv.main.next.NextFrame? ==> !sv.reader.Idle?
    ensures sv.main.SWaiting? || sv.main.SWriting? ==> !sv.reader.Idle? && got != []
    ensures sv.main.AwaitOpen? ==> got == []
  {
    hide ServerGrammar, DownHonest, DownBytes, UpBytes, HasHalfClose, OnlyPongs, Opened;
  }

  lemma SendVerdict(s: State, n: Met, a: Action)
    requires VerdictHolds(s, n) && ServerEnabled(s, a) && (a.ServerSend? || a.ServerSendFails?)
    ensures var s' := ServerApply(s, a);
            VerdictInv(s'.sv, s'.down.log, Got(s.up), n, s.down.end.Flowing?)
  {
    hide Fifo, ReaderInv, MainInv, Answers, StopInv, HasReset, HasStray, HasHalfClose;
    var got := Got(s.up);
    OpeningIsIdle(s.cfg, s.sv, s.down.log, got, s.down.end.Flowing?);
    if s.sv.main.next.StartRelay? {
      OneHas(got[0]);
      assert got == [got[0]];
    }
  }

  lemma TargetVerdict(s: State, n: Met, a: Action)
    requires VerdictHolds(s, n) && ServerEnabled(s, a) && TargetTask(a)
    ensures var s' := ServerApply(s, a);
            VerdictInv(s'.sv, s'.down.log, Got(s.up), n, s.down.end.Flowing?)
  {
    hide Fifo, ReaderInv, MainInv, Answers, StopInv, PongInv, HasReset, HasStray, HasHalfClose, ClosedOutput;
  }

  lemma ServerDoesVerdict(s: State, n: Met, a: Action)
    requires VerdictHolds(s, n) && ServerEnabled(s, a)
    ensures VerdictHolds(ServerApply(s, a), Note(n, s, ServerDoes(a)))
  {
    hide ReaderInv, MainInv, PongInv, StopInv, VerdictInv, Fifo, Got;
    ServerDoesHolds(s, a);
    SameStream(s, a);
    if a.ServerReceive? {
      OpeningIsIdle(s.cfg, s.sv, s.down.log, Got(s.up), s.down.end.Flowing?);
      ReceiveKeeps(s.up);
      ReceiveVerdict(s.sv, s.down.log, Got(s.up), n, s.down.end.Flowing?, s.up.net[0]);
    } else if TargetTask(a) {
      TargetVerdict(s, n, a);
    } else if a.ServerSend? || a.ServerSendFails? {
      SendVerdict(s, n, a);
    } else {
      LocalVerdict(s, n, a);
    }
  }

  lemma SameStream(s: State, a: Action)
    requires ServerEnabled(s, a)
    ensures ServerApply(s, a).down.end == s.down.end
    ensures !a.ServerReceive? ==> ServerApply(s, a).up == s.up
  {
  }

  lemma StreamVerdict(s: State, n: Met, m: ServerMove)
    requires VerdictHolds(s, n) && ServerCan(s, m) && !m.ServerDoes?
    ensures VerdictHolds(ServerNext(s, m), n)
  {
    hide ServerInv, PongInv, StopInv, Fifo, Got, TransportEnabled, TransportApply;
    hide ClosedOutput, OpenedOutput, Ending, ShutFor;
    StreamHolds(s, m);
    FifoOf(s);
    match m
    case StreamDoes(a) => TransportMoves(s, a);
    case ClientSends(f) => DeliverKeeps(s.up, f);
    case ClientTakes => ReceiveKeeps(s.down);
  }

  lemma FifoOf(s: State)
    requires ServerInv(s)
    ensures Fifo(s.up) && Fifo(s.down)
  {
    hide Fifo, ReaderInv, MainInv;
  }

  lemma {:induction false} RunVerdict(s: State, moves: seq<ServerMove>, n: Met)
    requires VerdictHolds(s, n) && ServerLegal(s, moves)
    ensures VerdictHolds(ServerRun(s, moves), ServerMet(s, moves, n))
    decreases moves
  {
    hide VerdictHolds, ServerEnabled, ServerApply, TransportEnabled, TransportApply;
    if moves != [] {
      if moves[0].ServerDoes? {
        ServerDoesVerdict(s, n, moves[0].a);
      } else {
        StreamVerdict(s, n, moves[0]);
      }
      RunVerdict(ServerNext(s, moves[0]), moves[1..], Note(n, s, moves[0]));
    }
  }

  // ----- the server's verdict

  /** Against any client, as a function of the frames received and the events met: whether the main
      loop is over or about to be, and, if the stream to the client has lived, everything it has
      said by the time it is over.  A refused or failed Open is answered, always and only, by a
      failed OpenResult; silence and a broken stream are answered by a Reset; a client that just
      ends its stream, or resets the tunnel, gets no answer. */
  lemma ServerVerdict(cfg: Config, moves: seq<ServerMove>)
    requires ServerLegal(ServerStart(cfg), moves)
    ensures var s, n := ServerRun(ServerStart(cfg), moves), ServerMet(ServerStart(cfg), moves, Nothing());
            && Fifo(s.up)
            && var got := Got(s.up);
               && (Working(s.sv.main) <==> !(n.dialFailed || NotOpen(got) || Ending(got, n)))
               && (s.sv.main.SDone? && s.down.end.Flowing? ==>
                     if s.sv.reader.Idle? then s.down.log == ClosedOutput(got, n)
                     else s.sv.fromMain == OpenedOutput(got, n))
  {
    hide ServerLegal, ServerRun, ServerMet, ServerInv, PongInv, StopInv, Answers;
    VerdictStarts(cfg);
    RunVerdict(ServerStart(cfg), moves, Nothing());
    FifoOf(ServerRun(ServerStart(cfg), moves));
  }

  /** Against any client: the target's write side is shut down exactly when a relaying server has
      received a half-close or a Reset or has seen the client's stream end or break. */
  lemma ShutExactly(cfg: Config, moves: seq<ServerMove>)
    requires ServerLegal(ServerStart(cfg), moves)
    ensures var s, n := ServerRun(ServerStart(cfg), moves), ServerMet(ServerStart(cfg), moves, Nothing());
            && Fifo(s.up)
            && (s.sv.shut <==> !s.sv.reader.Idle? && ShutFor(Got(s.up), n))
            && (s.sv.main.SWaiting? || s.sv.main.SWriting? ==> (s.sv.shut <==> HasHalfClose(Got(s.up))))
  {
    hide ServerLegal, ServerRun, ServerMet, ServerInv, PongInv, StopInv;
    VerdictStarts(cfg);
    RunVerdict(ServerStart(cfg), moves, Nothing());
    var s := ServerRun(ServerStart(cfg), moves);
    FifoOf(s);
    if s.sv.main.SWaiting? || s.sv.main.SWriting? {
      RelayingIsSpawned(s);
    }
  }

  lemma RelayingIsSpawned(s: State)
    requires ServerInv(s) && (s.sv.main.SWaiting? || s.sv.main.SWriting?)
    ensures !s.sv.reader.Idle?
  {
    hide Fifo, ReaderInv, Accepted, HasHalfClose, OnlyPongs;
  }

  // ----- what the client met

  /** Events other than frames: a write or the shutdown of the local side failed, the call itself
      failed, the server's stream broke, or it ended. */
  datatype Felt = Felt(writeFailed: bool, shutFailed: bool, callFailed: bool, broke: bool, ended: bool)

  function Calm(): Felt {
    Felt(false, false, false, false, false)
  }

  function Feel(n: Felt, s: State, m: ClientMove): Felt {
    if !m.ClientDoes? then n
    else
      match m.a
      case ClientWriteFails => n.(writeFailed := true)
      case ClientShutdownFails => n.(shutFailed := true)
      case ClientCallFails => n.(callFailed := true)
      case ClientSeesEnd => if s.down.end.Broken? then n.(broke := true) else n.(ended := true)
      case _ => n
  }

  function ClientFelt(s: State, moves: seq<ClientMove>, n: Felt): Felt
    requires ClientLegal(s, moves)
    decreases moves
  {
    if moves == [] then n else ClientFelt(ClientNext(s, moves[0]), moves[1..], Feel(n, s, moves[0]))
  }

  /** The answer to the Open, if it has come, is no good OpenResult. */
  predicate BadAnswer(got: seq<ServerFrame>) {
    got != [] && got[0] != SOpenResult(true)
  }

  predicate Closes(got: seq<ServerFrame>) {
    exists i :: 1 <= i < |got| && got[i].SHalfClose?
  }

  /** A Reset, a second OpenResult, or an empty frame after the answer. */
  predicate Breaks(got: seq<ServerFrame>) {
    exists i :: 1 <= i < |got| && !Relays(got[i]) && !got[i].SHalfClose?
  }

  /** The relay returns an error. */
  predicate Fails(got: seq<ServerFrame>, n: Felt) {
    n.writeFailed || n.shutFailed || n.callFailed || n.broke || BadAnswer(got) || Breaks(got) || (n.ended && got == [])
  }

  /** The receive loop is left. */
  predicate Leaves(got: seq<ServerFrame>, n: Felt) {
    Fails(got, n) || n.ended || Closes(got)
  }

  function OutcomeOf(got: seq<ServerFrame>, n: Felt): Outcome {
    if Fails(got, n) then Failed else if n.ended then StreamEnded else Completed
  }

  ghost predicate FeltHolds(s: State, n: Felt) {
    ClientHolds(s) && FeltInv(s.c, Got(s.down), n)
  }

  ghost predicate FeltInv(c: Client, got: seq<ServerFrame>, n: Felt) {
    && (if c.main.CDone? then Leaves(got, n) && c.main.outcome == OutcomeOf(got, n) else !Leaves(got, n))
    && (Closes(got) ==> n.(shutFailed := false) == Calm())
  }

  lemma FeltStarts(cfg: Config)
    ensures FeltHolds(Init(cfg), Calm())
  {
    ClientStarts(cfg);
  }

  lemma SnocCloses(got: seq<ServerFrame>, f: ServerFrame)
    requires got != []
    ensures Closes(got + [f]) <==> Closes(got) || f.SHalfClose?
    ensures Breaks(got + [f]) <==> Breaks(got) || (!Relays(f) && !f.SHalfClose?)
    ensures BadAnswer(got + [f]) <==> BadAnswer(got)
  {
    var more := got + [f];
    assert more[|got|] == f;
    assert forall i :: 0 <= i < |got| ==> more[i] == got[i];
  }

  lemma ReceiveFelt(c: Client, got: seq<ServerFrame>, n: Felt, f: ServerFrame)
    requires FeltInv(c, got, n) && (c.main.AwaitResult? ==> got == []) && (c.main.CWaiting? ==> got != [])
    requires c.main.AwaitResult? || c.main.CWaiting?
    ensures FeltInv(ClientHandles(c, f), got + [f], n)
    ensures f.SHalfClose? && c.main.CWaiting? ==> FeltInv(Leave(c, Failed), got + [f], n.(shutFailed := true))
  {
    hide Closes, Breaks;
    if got == [] {
      assert got + [f] == [f];
      NoLater(f);
    } else {
      SnocCloses(got, f);
    }
  }

  lemma NoLater(f: ServerFrame)
    ensures !Closes([f]) && !Breaks([f])
  {
  }

  lemma Waiting(c: Client, got: seq<ServerFrame>)
    requires LoopInv(c, got)
    ensures c.main.AwaitResult? ==> got == []
    ensures c.main.CWaiting? || c.main.CWriting? ==> got != []
  {
    hide DownBytes;
  }

  lemma ClientDoesFelt(s: State, n: Felt, a: Action)
    requires FeltHolds(s, n) && ClientEnabled(s, a)
    ensures FeltHolds(ClientApply(s, a), Feel(n, s, ClientDoes(a)))
  {
    hide UploaderInv, LoopInv, ClientStops, Fifo, Got, FeltInv;
    ClientDoesHolds(s, a);
    Waiting(s.c, Got(s.down));
    if a.ClientReceive? || a.ClientShutdownFails? {
      ReceiveKeeps(s.down);
      ReceiveFelt(s.c, Got(s.down), n, s.down.net[0]);
    } else {
      LocalFelt(s, n, a, Got(s.down));
    }
  }

  /** A step that takes no frame. */
  lemma LocalFelt(s: State, n: Felt, a: Action, got: seq<ServerFrame>)
    requires ClientEnabled(s, a) && !a.ClientReceive? && !a.ClientShutdownFails?
    requires s.c.main.AwaitResult? ==> got == []
    requires s.c.main.CWaiting? || s.c.main.CWriting? ==> got != []
    requires FeltInv(s.c, got, n)
    ensures ClientApply(s, a).down == s.down && FeltInv(ClientApply(s, a).c, got, Feel(n, s, ClientDoes(a)))
  {
    hide Closes, Breaks;
  }

  lemma PathFelt(s: State, n: Felt, m: ClientMove)
    requires FeltHolds(s, n) && ClientCan(s, m) && !m.ClientDoes?
    ensures FeltHolds(ClientNext(s, m), n)
  {
    hide ClientInv, ClientStops, Fifo, Got, FeltInv, TransportEnabled, TransportApply;
    PathHolds(s, m);
    ClientFifo(s);
    match m
    case PathDoes(a) => TransportMoves(s, a);
    case ServerSends(f) => DeliverKeeps(s.down, f);
    case ServerTakes => ReceiveKeeps(s.up);
  }

  lemma ClientFifo(s: State)
    requires ClientInv(s)
    ensures Fifo(s.up) && Fifo(s.down)
  {
    hide Fifo, UploaderInv, LoopInv;
  }

  lemma {:induction false} RunFelt(s: State, moves: seq<ClientMove>, n: Felt)
    requires FeltHolds(s, n) && ClientLegal(s, moves)
    ensures FeltHolds(ClientRun(s, moves), ClientFelt(s, moves, n))
    decreases moves
  {
    hide FeltHolds, ClientEnabled, ClientApply, TransportEnabled, TransportApply;
    if moves != [] {
      if moves[0].ClientDoes? {
        ClientDoesFelt(s, n, moves[0].a);
      } else {
        PathFelt(s, n, moves[0]);
      }
      RunFelt(ClientNext(s, moves[0]), moves[1..], Feel(n, s, moves[0]));
    }
  }

  /** Against any server, as a function of the frames received and the events met: whether the
      receive loop has been left, with which outcome, whether the local side was shut down, and
      whether the uploader is to be aborted.  Data and pongs never end the loop; a clean end of
      stream after a good OpenResult is no error. */
  lemma ClientVerdict(cfg: Config, moves: seq<ClientMove>)
    requires ClientLegal(Init(cfg), moves)
    ensures var s, n := ClientRun(Init(cfg), moves), ClientFelt(Init(cfg), moves, Calm());
            && Fifo(s.down)
            && var got := Got(s.down);
               && (s.c.main.CDone? <==> Leaves(got, n))
               && (s.c.main.CDone? ==> s.c.main.outcome == OutcomeOf(got, n))
               && (s.c.shut <==> Closes(got) && !n.shutFailed)
               && (s.c.abort <==> Leaves(got, n) && !Fails(got, n))
  {
    hide ClientLegal, ClientRun, ClientFelt, UploaderInv, Fifo, Relayed, DownBytes;
    FeltStarts(cfg);
    RunFelt(Init(cfg), moves, Calm());
    var s := ClientRun(Init(cfg), moves);
    ClosesMeans(s.c, Got(s.down), ClientFelt(Init(cfg), moves, Calm()));
  }

  /** The half-close is always the frame that ends the loop, and the only way to complete. */
  lemma ClosesMeans(c: Client, got: seq<ServerFrame>, n: Felt)
    requires LoopInv(c, got) && ClientStops(c, got) && FeltInv(c, got, n)
    ensures c.shut <==> Closes(got) && !n.shutFailed
    ensures c.abort <==> Leaves(got, n) && !Fails(got, n)
  {
    hide DownBytes;
  }
}
