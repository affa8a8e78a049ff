/** Each side against anybody: what the server keeps whatever a client sends it, and what the client
    keeps whatever a server answers. */
module RelayAlone {
  import opened Bytes
  import opened Channel
  import opened Frames
  import opened Relay
  import opened RelayInvariant
  import opened RelayTheorems

  // ----- a peer that may do anything

  /** The peer's frames reach the receiver in order; its own queue is not our concern. */
  predicate CanDeliver<F>(ch: Channel<F>) {
    ch.end.Flowing? && ch.queue == []
  }

  function Deliver<F>(ch: Channel<F>, f: F): Channel<F> {
    ch.(net := ch.net + [f], log := ch.log + [f])
  }

  lemma DeliverKeeps<F>(ch: Channel<F>, f: F)
    requires Fifo(ch) && CanDeliver(ch)
    ensures Fifo(Deliver(ch, f)) && Got(Deliver(ch, f)) == Got(ch)
  {
  }

  // ----- the server against any client

  /** The server's tasks, the transport, and a client that sends any frame at any time, takes what
      reaches it, and may be cut off or end its stream at any moment. */
  datatype ServerMove = ServerDoes(a: Action) | StreamDoes(a: Action) | ClientSends(f: ClientFrame) | ClientTakes

  /** The server waits for a first frame; nothing has been sent to it yet. */
  function ServerStart(cfg: Config): State {
    Init(cfg).(up := Channel([], [], Flowing, [], 0))
  }

  predicate ServerCan(s: State, m: ServerMove) {
    match m
    case ServerDoes(a) => ServerEnabled(s, a)
    case StreamDoes(a) => TransportEnabled(s, a)
    case ClientSends(_) => CanDeliver(s.up)
    case ClientTakes => CanReceive(s.down)
  }

  function ServerNext(s: State, m: ServerMove): State
    requires ServerCan(s, m)
  {
    match m
    case ServerDoes(a) => ServerApply(s, a)
    case StreamDoes(a) => TransportApply(s, a)
    case ClientSends(f) => s.(up := Deliver(s.up, f))
    case ClientTakes => s.(down := Receive(s.down))
  }

  predicate ServerLegal(s: State, moves: seq<ServerMove>)
    decreases moves
  {
    moves == [] || (ServerCan(s, moves[0]) && ServerLegal(ServerNext(s, moves[0]), moves[1..]))
  }

  function ServerRun(s: State, moves: seq<ServerMove>): State
    requires ServerLegal(s, moves)
    decreases moves
  {
    if moves == [] then s else ServerRun(ServerNext(s, moves[0]), moves[1..])
  }

  /** What the main loop owes for the pings it has received. */
  function Answers(got: seq<ClientFrame>): seq<ServerFrame> {
    if got == [] then []
    else
      var front, last := Answers(got[..|got| - 1]), got[|got| - 1];
      if last.CPing? then front + [SPong(last.millis)] else front
  }

  /** While the stream to the client lives, every ping is answered once, in order, with its own
      time, and nothing else but a final Reset comes from the main loop. */
  ghost predicate PongInv(sv: Server, got: seq<ClientFrame>) {
    match sv.main
    case SWaiting => sv.fromMain == Answers(got)
    case SWriting(_) => sv.fromMain == Answers(got)
    case Sending(f, NextFrame) => sv.fromMain + [f] == Answers(got)
    case Sending(_, BreakLoop) => sv.fromMain == Answers(got)
    case SDone => sv.fromMain == [] || sv.fromMain == Answers(got) || sv.fromMain == Answers(got) + [SReset]
    case _ => sv.fromMain == []
  }

  /** A frame after which the server goes on relaying. */
  predicate GoesOn(f: ClientFrame) {
    f.CData? || f.CHalfClose? || f.CPing?
  }

  predicate Leaving(m: ServerMain) {
    m.SDone? || (m.Sending? && (m.next.BreakLoop? || m.next.Return?))
  }

  /** The server handles nothing after a frame it gives up on: a first frame that is no Open, and
      later a Reset, a second Open, or an empty frame. */
  ghost predicate StopInv(sv: Server, sent: seq<ServerFrame>, got: seq<ClientFrame>) {
    && (got != [] && !got[0].COpen? ==> |got| == 1 && Leaving(sv.main) && sent <= [SOpenResult(false)])
    && (got != [] && !got[0].COpen? && sv.main.Sending? ==> sent == [] && sv.main.frame == SOpenResult(false))
    && (forall i :: 1 <= i < |got| && !GoesOn(got[i]) ==> i == |got| - 1 && Leaving(sv.main))
  }

  ghost predicate ServerHolds(s: State) {
    && ServerInv(s)
    && (s.down.end.Flowing? ==> PongInv(s.sv, Got(s.up)))
    && StopInv(s.sv, s.down.log, Got(s.up))
  }

  lemma ServerStarts(cfg: Config)
    ensures ServerHolds(ServerStart(cfg))
  {
  }

  lemma AnswersSnoc(got: seq<ClientFrame>, f: ClientFrame)
    ensures Answers(got + [f]) == if f.CPing? then Answers(got) + [SPong(f.millis)] else Answers(got)
  {
    assert (got + [f])[..|got|] == got;
  }

  lemma NoAnswerToOpen(got: seq<ClientFrame>)
    requires |got| == 1 && got[0].COpen?
    ensures Answers(got) == []
  {
    assert got[..0] == [];
  }

  /** What the main loop's invariant says of the phases in which it owes no pong. */
  lemma OpeningPhase(cfg: Config, sv: Server, sent: seq<ServerFrame>, got: seq<ClientFrame>, flowing: bool)
    requires MainInv(sv, sent, got) && ReaderInv(cfg, sv, sent, flowing)
    ensures sv.main.AwaitOpen? ==> got == [] && sent == [] && sv.fromMain == []
    ensures sv.main.Sending? && sv.main.next.StartRelay? ==> |got| == 1 && got[0].COpen? && sv.fromMain == []
    ensures sv.main.Sending? && sv.main.next.BreakLoop? ==> sv.main.frame == SReset
    ensures sv.main.SWaiting? ==> Accepted(got)
    ensures sv.main.Dialing? || sv.main.WritingFirst? ==> got != [] && got[0].COpen?
  {
    hide ServerGrammar, DownHonest, DownBytes, HasHalfClose, OnlyPongs, Opened;
  }

  // ----- each move

  lemma ReceiveHolds(sv: Server, sent: seq<ServerFrame>, got: seq<ClientFrame>, f: ClientFrame)
    requires sv.main.AwaitOpen? ==> got == [] && sent == []
    requires sv.main.SWaiting? ==> Accepted(got)
    requires sv.main.AwaitOpen? || sv.main.SWaiting?
    ensures PongInv(sv, got) ==> PongInv(ServerHandles(sv, f), got + [f])
    ensures StopInv(ServerHandles(sv, f), sent, got + [f])
  {
    AnswersSnoc(got, f);
    assert got == [] ==> got + [f] == [f];
  }

  lemma LocalHolds(s: State, a: Action)
    requires ServerHolds(s) && ServerEnabled(s, a) && !TargetTask(a)
    requires !a.ServerReceive? && !a.ServerSend? && !a.ServerSendFails?
    ensures var s' := ServerApply(s, a);
            && (PongInv(s.sv, Got(s.up)) ==> PongInv(s'.sv, Got(s.up)))
            && StopInv(s'.sv, s.down.log, Got(s.up))
  {
    hide Fifo, ReaderInv, MainInv, Answers;
    OpeningPhase(s.cfg, s.sv, s.down.log, Got(s.up), s.down.end.Flowing?);
  }

  lemma SendHolds(s: State, a: Action)
    requires ServerHolds(s) && ServerEnabled(s, a) && (a.ServerSend? || a.ServerSendFails?)
    ensures var s' := ServerApply(s, a);
            && (s.down.end.Flowing? ==> PongInv(s'.sv, Got(s.up)))
            && StopInv(s'.sv, s'.down.log, Got(s.up))
  {
    hide Fifo, ReaderInv, MainInv, Answers;
    OpeningPhase(s.cfg, s.sv, s.down.log, Got(s.up), s.down.end.Flowing?);
    if s.sv.main.next.StartRelay? {
      NoAnswerToOpen(Got(s.up));
    }
  }

  lemma TargetHolds(s: State, a: Action)
    requires ServerHolds(s) && ServerEnabled(s, a) && TargetTask(a)
    ensures var s' := ServerApply(s, a);
            && (PongInv(s.sv, Got(s.up)) ==> PongInv(s'.sv, Got(s.up)))
            && StopInv(s'.sv, s'.down.log, Got(s.up))
  {
    hide Fifo, ReaderInv, MainInv, Answers;
    if s.down.end.Flowing? {
      ReaderNeedsOpen(s.cfg, s.sv, s.down.log, Got(s.up));
    }
  }

  /** A live reader was spawned after a good OpenResult, so the first frame was an Open. */
  lemma ReaderNeedsOpen(cfg: Config, sv: Server, sent: seq<ServerFrame>, got: seq<ClientFrame>)
    requires ReaderInv(cfg, sv, sent, true) && MainInv(sv, sent, got) && !sv.reader.Idle?
    ensures got != [] && got[0].COpen?
  {
    hide ServerGrammar, DownHonest, DownBytes, Accepted, HasHalfClose, OnlyPongs;
  }

  lemma ServerDoesHolds(s: State, a: Action)
    requires ServerHolds(s) && ServerEnabled(s, a)
    ensures ServerHolds(ServerApply(s, a))
  {
    hide ReaderInv, MainInv, PongInv, StopInv, Fifo, Got;
    ServerStepKeeps(s, a);
    if a.ServerReceive? {
      OpeningPhase(s.cfg, s.sv, s.down.log, Got(s.up), s.down.end.Flowing?);
      ReceiveKeeps(s.up);
      ReceiveHolds(s.sv, s.down.log, Got(s.up), s.up.net[0]);
    } else if TargetTask(a) {
      TargetHolds(s, a);
    } else if a.ServerSend? || a.ServerSendFails? {
      SendHolds(s, a);
    } else {
      LocalHolds(s, a);
    }
  }

  lemma StreamHolds(s: State, m: ServerMove)
    requires ServerHolds(s) && ServerCan(s, m) && !m.ServerDoes?
    ensures ServerHolds(ServerNext(s, m))
  {
    hide ReaderInv, MainInv, PongInv, StopInv, Fifo, Got, TransportEnabled, TransportApply;
    match m
    case StreamDoes(a) =>
      TransportKeepsServer(s, a);
      TransportMoves(s, a);
    case ClientSends(f) => DeliverKeeps(s.up, f);
    case ClientTakes => ReceiveKeeps(s.down);
  }

  lemma {:induction false} ServerRunHolds(s: State, moves: seq<ServerMove>)
    requires ServerHolds(s) && ServerLegal(s, moves)
    ensures ServerHolds(ServerRun(s, moves)) && ServerRun(s, moves).cfg == s.cfg
    decreases moves
  {
    hide ServerHolds, ServerEnabled, ServerApply, TransportEnabled, TransportApply;
    if moves != [] {
      if moves[0].ServerDoes? {
        ServerDoesHolds(s, moves[0].a);
      } else {
        StreamHolds(s, moves[0]);
      }
      SameConfig(s, moves[0]);
      ServerRunHolds(ServerNext(s, moves[0]), moves[1..]);
    }
  }

  lemma SameConfig(s: State, m: ServerMove)
    requires ServerCan(s, m)
    ensures ServerNext(s, m).cfg == s.cfg
  {
    hide ServerEnabled, TransportEnabled;
  }

  // ----- what the server promises anybody

  /** Whatever frames a client sends, in whatever order, and whenever it is cut off: the server's
      output obeys the protocol's grammar, a half-close comes after everything the target will
      ever write, the target is sent a prefix of the stream bytes received, a good OpenResult
      follows an Open whose whole payload is written, and no target byte that was read is lost,
      duplicated or reordered on the way into the queue. */
  lemma ServerConforms(cfg: Config, moves: seq<ServerMove>)
    requires ServerLegal(ServerStart(cfg), moves)
    ensures var s := ServerRun(ServerStart(cfg), moves);
            && Fifo(s.up) && s.sv.read <= |cfg.target|
            && ServerGrammar(s.down.log, s.sv.fromReader, s.sv.fromMain) && DownHonest(cfg, s.down.log)
            && s.sv.written <= UpBytes(Got(s.up))
            && (s.down.log != [] && s.down.log[0] == SOpenResult(true) ==>
                  Got(s.up) != [] && Got(s.up)[0].COpen? && Got(s.up)[0].firstPayload <= s.sv.written)
            && DownBytes(s.down.log) + Carried(ServerBytes, s.sv.reader) == cfg.target[..s.sv.read]
  {
    hide ServerLegal, ServerRun, ServerInv, PongInv, StopInv;
    ServerStarts(cfg);
    ServerRunHolds(ServerStart(cfg), moves);
    ServerPromises(ServerRun(ServerStart(cfg), moves));
  }

  /** However pings, data and half-closes are mixed: while the stream to the client lives and the
      server relays, its main loop has answered every ping received, once, in order, each with its
      own time, but for the one answer it is about to send. */
  lemma PingsAreAnswered(cfg: Config, moves: seq<ServerMove>)
    requires ServerLegal(ServerStart(cfg), moves) && ServerRun(ServerStart(cfg), moves).down.end.Flowing?
    ensures var s := ServerRun(ServerStart(cfg), moves);
            && Fifo(s.up)
            && (s.sv.main.SWaiting? || s.sv.main.SWriting? ==> s.sv.fromMain == Answers(Got(s.up)))
            && (s.sv.main.Sending? && s.sv.main.next.NextFrame? ==> s.sv.fromMain + [s.sv.main.frame] == Answers(Got(s.up)))
  {
    hide ServerLegal, ServerRun, StopInv, ReaderInv, MainInv, Fifo, Answers;
    ServerStarts(cfg);
    ServerRunHolds(ServerStart(cfg), moves);
  }

  /** The first frame that is no Open, and later the first Reset, second Open, or empty frame, is the
      last frame the server ever handles; to a first frame that is no Open it answers at most with
      a failed OpenResult. */
  lemma BadFrameIsLast(cfg: Config, moves: seq<ServerMove>, i: nat)
    requires ServerLegal(ServerStart(cfg), moves)
    requires var s := ServerRun(ServerStart(cfg), moves);
             Fifo(s.up) && i < |Got(s.up)| && if i == 0 then !Got(s.up)[0].COpen? else !GoesOn(Got(s.up)[i])
    ensures var s := ServerRun(ServerStart(cfg), moves);
            && i == |Got(s.up)| - 1 && Leaving(s.sv.main)
            && (i == 0 ==> s.down.log <= [SOpenResult(false)])
  {
    hide ServerLegal, ServerRun, PongInv, ReaderInv, MainInv, Fifo;
    ServerStarts(cfg);
    ServerRunHolds(ServerStart(cfg), moves);
  }

  // ----- the client against any server

  datatype ClientMove = ClientDoes(a: Action) | PathDoes(a: Action) | ServerSends(f: ServerFrame) | ServerTakes

  predicate ClientCan(s: State, m: ClientMove) {
    match m
    case ClientDoes(a) => ClientEnabled(s, a)
    case PathDoes(a) => TransportEnabled(s, a)
    case ServerSends(_) => CanDeliver(s.down)
    case ServerTakes => CanReceive(s.up)
  }

  function ClientNext(s: State, m: ClientMove): State
    requires ClientCan(s, m)
  {
    match m
    case ClientDoes(a) => ClientApply(s, a)
    case PathDoes(a) => TransportApply(s, a)
    case ServerSends(f) => s.(down := Deliver(s.down, f))
    case ServerTakes => s.(up := Receive(s.up))
  }

  predicate ClientLegal(s: State, moves: seq<ClientMove>)
    decreases moves
  {
    moves == [] || (ClientCan(s, moves[0]) && ClientLegal(ClientNext(s, moves[0]), moves[1..]))
  }

  function ClientRun(s: State, moves: seq<ClientMove>): State
    requires ClientLegal(s, moves)
    decreases moves
  {
    if moves == [] then s else ClientRun(ClientNext(s, moves[0]), moves[1..])
  }

  /** A frame after which the client goes on relaying. */
  predicate Relays(f: ServerFrame) {
    f.SData? || f.SPong?
  }

  /** The client handles nothing after an answer that is no good OpenResult, nor later after a
      frame that is neither data nor a pong. */
  ghost predicate ClientStops(c: Client, got: seq<ServerFrame>) {
    && (got != [] && got[0] != SOpenResult(true) ==> |got| == 1 && c.main == CDone(Failed))
    && (forall i :: 1 <= i < |got| && !Relays(got[i]) ==> i == |got| - 1 && c.main.CDone?)
  }

  ghost predicate ClientHolds(s: State) {
    ClientInv(s) && ClientStops(s.c, Got(s.down))
  }

  lemma ClientDoesHolds(s: State, a: Action)
    requires ClientHolds(s) && ClientEnabled(s, a)
    ensures ClientHolds(ClientApply(s, a))
  {
    hide UploaderInv, LoopInv, ClientStops, Fifo, Got;
    ClientStepKeeps(s, a);
    if a.ClientReceive? || a.ClientShutdownFails? {
      ReceiveKeeps(s.down);
      FrameStops(s.c, Got(s.down), s.down.net[0]);
    } else {
      LoopStops(s.c, ClientApply(s, a).c, Got(s.down));
    }
  }

  lemma FrameStops(c: Client, got: seq<ServerFrame>, f: ServerFrame)
    requires LoopInv(c, got) && (c.main.AwaitResult? || c.main.CWaiting?)
    ensures ClientStops(ClientHandles(c, f), got + [f])
    ensures c.main.CWaiting? && f.SHalfClose? ==> ClientStops(Leave(c, Failed), got + [f])
  {
    hide DownBytes;
    assert got == [] ==> got + [f] == [f];
  }

  lemma LoopStops(c: Client, c': Client, got: seq<ServerFrame>)
    requires ClientStops(c, got) && (c.main.CDone? ==> c'.main == c.main)
    ensures ClientStops(c', got)
  {
  }

  lemma PathHolds(s: State, m: ClientMove)
    requires ClientHolds(s) && ClientCan(s, m) && !m.ClientDoes?
    ensures ClientHolds(ClientNext(s, m))
  {
    hide UploaderInv, LoopInv, ClientStops, Fifo, Got, TransportEnabled, TransportApply;
    match m
    case PathDoes(a) =>
      TransportKeepsClient(s, a);
      TransportMoves(s, a);
    case ServerSends(f) => DeliverKeeps(s.down, f);
    case ServerTakes => ReceiveKeeps(s.up);
  }

  lemma {:induction false} ClientRunHolds(s: State, moves: seq<ClientMove>)
    requires ClientHolds(s) && ClientLegal(s, moves)
    ensures ClientHolds(ClientRun(s, moves)) && ClientRun(s, moves).cfg == s.cfg
    decreases moves
  {
    hide ClientHolds, ClientEnabled, ClientApply, TransportEnabled, TransportApply;
    if moves != [] {
      if moves[0].ClientDoes? {
        ClientDoesHolds(s, moves[0].a);
      } else {
        PathHolds(s, moves[0]);
      }
      SameClientConfig(s, moves[0]);
      ClientRunHolds(ClientNext(s, moves[0]), moves[1..]);
    }
  }

  lemma SameClientConfig(s: State, m: ClientMove)
    requires ClientCan(s, m)
    ensures ClientNext(s, m).cfg == s.cfg
  {
    hide ClientEnabled, TransportEnabled;
  }

  lemma ClientStarts(cfg: Config)
    ensures ClientHolds(Init(cfg))
  {
    hide ServerInv, UploaderInv, LoopInv;
    InitInv(cfg);
  }

  // ----- what the client promises anybody

  /** Whatever frames a server sends, in whatever order, and whenever it is cut off: the client's
      output obeys the protocol's grammar, nothing follows the Open before a good OpenResult, a
      half-close comes after everything the local side will ever write, no local byte that was
      read is lost, duplicated or reordered on the way into the queue, and the local side is
      written a prefix of the data received, all of it if it is shut down. */
  lemma ClientConforms(cfg: Config, moves: seq<ClientMove>)
    requires ClientLegal(Init(cfg), moves)
    ensures var s := ClientRun(Init(cfg), moves);
            && Fifo(s.down) && s.c.read <= |cfg.local|
            && ClientGrammar(cfg, s.up.log) && UpHonest(cfg, s.up.log)
            && (|s.up.log| > 1 ==> Got(s.down) != [] && Got(s.down)[0] == SOpenResult(true))
            && UpBytes(s.up.log) + Carried(ClientBytes, s.c.uploader) == cfg.first + cfg.local[..s.c.read]
            && s.c.written <= DownBytes(Got(s.down))
            && (s.c.shut ==>
                  s.c.written == DownBytes(Got(s.down)) && Got(s.down) != [] && Got(s.down)[|Got(s.down)| - 1].SHalfClose?)
  {
    hide ClientLegal, ClientRun, ClientInv, ClientStops;
    ClientStarts(cfg);
    ClientRunHolds(Init(cfg), moves);
    ClientPromises(ClientRun(Init(cfg), moves));
  }

  /** An answer that is no good OpenResult, and later the first frame that is neither data nor a
      pong, is the last frame the client ever handles. */
  lemma BadAnswerIsLast(cfg: Config, moves: seq<ClientMove>, i: nat)
    requires ClientLegal(Init(cfg), moves)
    requires var s := ClientRun(Init(cfg), moves);
             Fifo(s.down) && i < |Got(s.down)| &&
             if i == 0 then Got(s.down)[0] != SOpenResult(true) else !Relays(Got(s.down)[i])
    ensures var s := ClientRun(Init(cfg), moves);
            i == |Got(s.down)| - 1 && s.c.main.CDone? && (i == 0 ==> s.c.main == CDone(Failed) && |s.up.log| == 1)
  {
    hide ClientLegal, ClientRun, LoopInv, Fifo, UploaderInv;
    ClientStarts(cfg);
    ClientRunHolds(Init(cfg), moves);
    ClientConforms(cfg, moves);
    OpenWasSent(cfg, ClientRun(Init(cfg), moves).up.log);
  }

  lemma OpenWasSent(cfg: Config, sent: seq<ClientFrame>)
    requires ClientGrammar(cfg, sent)
    ensures sent != []
  {
  }
}
