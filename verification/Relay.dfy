/** The tunnel as a transition system: the client's receive loop and uploader task, the server's
    main loop and target reader task, and the two directions of the gRPC stream between them.
    Each action is one step of one task, of the transport, or of the environment. */
module Relay {
  import opened Bytes
  import opened Channel
  import opened Frames

  /** What the environment will offer: the payload sent with Open, everything the local side
      will ever write, and everything the target will ever write. */
  datatype Config = Config(first: seq<byte>, local: seq<byte>, target: seq<byte>)

  /** A spawned read loop.  `Stopped` has been aborted, or gave up because its send failed;
      `lost` is the payload of the frame it was holding. */
  datatype Task<F> = Idle | Reading | Holding(frame: F) | Finished | Stopped(lost: seq<byte>)

  datatype Outcome = Completed | StreamEnded | Failed

  datatype ClientMain =
    | AwaitResult
    | CWaiting
    | CWriting(pending: seq<byte>)
    | CDone(outcome: Outcome)

  datatype Client = Client(
    main: ClientMain, uploader: Task<ClientFrame>, abort: bool,
    read: nat, written: seq<byte>, shut: bool)

  /** Where the server's main loop goes once the frame it is sending is queued. */
  datatype AfterSend = StartRelay | NextFrame | BreakLoop | Return

  datatype ServerMain =
    | AwaitOpen
    | Dialing(first: seq<byte>)
    | WritingFirst(pending: seq<byte>)
    | SWaiting
    | SWriting(pending: seq<byte>)
    | Sending(frame: ServerFrame, next: AfterSend)
    | SDone

  /** `fromReader` and `fromMain` are history: the frames each task got into the shared queue
      after the OpenResult. */
  datatype Server = Server(
    main: ServerMain, reader: Task<ServerFrame>, abort: bool,
    read: nat, written: seq<byte>, shut: bool,
    fromReader: seq<ServerFrame>, fromMain: seq<ServerFrame>)

  datatype State = State(
    cfg: Config, c: Client, sv: Server, up: Channel<ClientFrame>, down: Channel<ServerFrame>)

  datatype Action =
    // client receive loop
    | ClientReceive | ClientSeesEnd | ClientWrite(n: nat) | ClientWriteDone
    | ClientWriteFails | ClientShutdownFails | ClientCallFails
    // uploader task
    | UploadRead(n: nat) | UploadEof | UploadReadFails
    | UploadSend | UploadSendFails | UploadCancel
    // transport
    | UpMove | UpClose | UpCut(keep: nat, end: End)
    | DownMove | DownClose | DownCut(keep: nat, end: End)
    // server main loop
    | ServerReceive | ServerSeesEnd | ServerTimeout | DialOk | DialFails
    | ServerWrite(n: nat) | ServerWriteDone | ServerWriteFails
    | ServerSend | ServerSendFails
    // target reader task
    | TargetRead(n: nat) | TargetEof | TargetReadFails
    | TargetSend | TargetSendFails | TargetCancel

  /** The client has queued its Open frame; the server waits for it. */
  function Init(cfg: Config): State {
    State(cfg,
          Client(AwaitResult, Idle, false, 0, [], false),
          Server(AwaitOpen, Idle, false, 0, [], false, [], []),
          Send(Channel([], [], Flowing, [], 0), COpen(cfg.first)),
          Channel([], [], Flowing, [], 0))
  }

  predicate Active<F>(t: Task<F>) {
    t.Reading? || t.Holding?
  }

  function Carried<F>(carried: F -> seq<byte>, t: Task<F>): seq<byte> {
    match t
    case Holding(f) => carried(f)
    case Stopped(lost) => lost
    case _ => []
  }

  // ----- client

  predicate ClientEnabled(s: State, a: Action) {
    match a
    case ClientReceive => CanReceive(s.down) && (s.c.main.AwaitResult? || s.c.main.CWaiting?)
    case ClientSeesEnd => AtEnd(s.down) && (s.c.main.AwaitResult? || s.c.main.CWaiting?)
    case ClientWrite(n) => s.c.main.CWriting? && 1 <= n <= |s.c.main.pending|
    case ClientWriteDone => s.c.main == CWriting([])
    case ClientWriteFails => s.c.main.CWriting? && s.c.main.pending != []
    case ClientShutdownFails => s.c.main.CWaiting? && CanReceive(s.down) && s.down.net[0].SHalfClose?
    case ClientCallFails => s.c.main.AwaitResult?
    case UploadRead(n) => s.c.uploader.Reading? && 1 <= n <= DATA_CHUNK_SIZE && s.c.read + n <= |s.cfg.local|
    case UploadEof => s.c.uploader.Reading? && s.c.read == |s.cfg.local|
    case UploadReadFails => s.c.uploader.Reading?
    case UploadSend => s.c.uploader.Holding? && CanSend(s.up)
    case UploadSendFails => s.c.uploader.Holding? && !s.up.end.Flowing?
    case UploadCancel => s.c.abort && Active(s.c.uploader)
    case _ => false
  }

  /** The receive loop returns.  Only the two ways out of the loop that are not errors reach
      `local_to_grpc.abort()`; an error leaves the uploader running. */
  function Leave(c: Client, outcome: Outcome): Client {
    c.(main := CDone(outcome), abort := !outcome.Failed?)
  }

  function ClientHandles(c: Client, f: ServerFrame): Client {
    if c.main.AwaitResult? then
      (match f
       case SOpenResult(ok) =>
         if ok then c.(main := CWaiting, uploader := Reading) else Leave(c, Failed)
       case _ => Leave(c, Failed))
    else
      match f
      case SData(d) => c.(main := CWriting(d))
      case SHalfClose => Leave(c, Completed).(shut := true)
      case SPong(_) => c
      case _ => Leave(c, Failed)
  }

  function ClientApply(s: State, a: Action): State
    requires ClientEnabled(s, a)
  {
    match a
    case ClientReceive => s.(c := ClientHandles(s.c, s.down.net[0]), down := Receive(s.down))
    case ClientSeesEnd =>
      var broken := s.c.main.AwaitResult? || s.down.end.Broken?;
      s.(c := Leave(s.c, if broken then Failed else StreamEnded))
    case ClientWrite(n) =>
      var p := s.c.main.pending;
      s.(c := s.c.(main := CWriting(p[n..]), written := s.c.written + p[..n]))
    case ClientWriteDone => s.(c := s.c.(main := CWaiting))
    case ClientWriteFails => s.(c := Leave(s.c, Failed))
    case ClientShutdownFails => s.(c := Leave(s.c, Failed), down := Receive(s.down))
    case ClientCallFails => s.(c := Leave(s.c, Failed))
    case UploadRead(n) =>
      var chunk := s.cfg.local[s.c.read..s.c.read + n];
      s.(c := s.c.(uploader := Holding(CData(chunk)), read := s.c.read + n))
    case UploadEof => s.(c := s.c.(uploader := Holding(CHalfClose)))
    case UploadReadFails => s.(c := s.c.(uploader := Holding(CReset)))
    case UploadSend =>
      var f := s.c.uploader.frame;
      s.(c := s.c.(uploader := if f.CData? then Reading else Finished), up := Send(s.up, f))
    case UploadSendFails => s.(c := s.c.(uploader := Stopped(ClientBytes(s.c.uploader.frame))))
    case UploadCancel => s.(c := s.c.(uploader := Stopped(Carried(ClientBytes, s.c.uploader))))
  }

  // ----- transport

  /** A direction ends cleanly when both tasks that can send into it are gone. */
  predicate TransportEnabled(s: State, a: Action) {
    match a
    case UpMove => CanMove(s.up)
    case UpClose => CanClose(s.up) && s.c.main.CDone? && !Active(s.c.uploader)
    case UpCut(k, e) => CanCut(s.up, k, e)
    case DownMove => CanMove(s.down)
    case DownClose => CanClose(s.down) && s.sv.main.SDone? && !Active(s.sv.reader)
    case DownCut(k, e) => CanCut(s.down, k, e)
    case _ => false
  }

  function TransportApply(s: State, a: Action): State
    requires TransportEnabled(s, a)
  {
    match a
    case UpMove => s.(up := Move(s.up))
    case UpClose => s.(up := Close(s.up))
    case UpCut(k, e) => s.(up := Cut(s.up, k, e))
    case DownMove => s.(down := Move(s.down))
    case DownClose => s.(down := Close(s.down))
    case DownCut(k, e) => s.(down := Cut(s.down, k, e))
  }

  // ----- server

  predicate ServerEnabled(s: State, a: Action) {
    var m := s.sv.main;
    match a
    case ServerReceive => CanReceive(s.up) && (m.AwaitOpen? || m.SWaiting?)
    case ServerSeesEnd => AtEnd(s.up) && (m.AwaitOpen? || m.SWaiting?)
    case ServerTimeout => m.AwaitOpen? || m.SWaiting?
    case DialOk => m.Dialing?
    case DialFails => m.Dialing?
    case ServerWrite(n) => (m.WritingFirst? || m.SWriting?) && !s.sv.shut && 1 <= n <= |m.pending|
    case ServerWriteDone => (m.WritingFirst? || m.SWriting?) && m.pending == []
    case ServerWriteFails => (m.WritingFirst? || m.SWriting?) && m.pending != []
    case ServerSend => m.Sending? && CanSend(s.down)
    case ServerSendFails => m.Sending? && !s.down.end.Flowing?
    case TargetRead(n) => s.sv.reader.Reading? && 1 <= n <= DATA_CHUNK_SIZE && s.sv.read + n <= |s.cfg.target|
    case TargetEof => s.sv.reader.Reading? && s.sv.read == |s.cfg.target|
    case TargetReadFails => s.sv.reader.Reading?
    case TargetSend => s.sv.reader.Holding? && CanSend(s.down)
    case TargetSendFails => s.sv.reader.Holding? && !s.down.end.Flowing?
    case TargetCancel => s.sv.abort && Active(s.sv.reader)
    case _ => false
  }

  /** Leaving the main loop aborts the target reader. */
  function Break(sv: Server): Server {
    sv.(main := SDone, abort := true)
  }

  function ServerHandles(sv: Server, f: ClientFrame): Server {
    if sv.main.AwaitOpen? then
      (match f
       case COpen(p) => sv.(main := Dialing(p))
       case _ => sv.(main := Sending(SOpenResult(false), Return)))
    else
      match f
      case CData(d) => sv.(main := SWriting(d))
      case CHalfClose => sv.(shut := true)
      case CReset => Break(sv.(shut := true))
      case CPing(t) => sv.(main := Sending(SPong(t), NextFrame))
      case COpen(_) => sv.(main := Sending(SReset, BreakLoop))
      case CEmpty => sv.(main := Sending(SReset, BreakLoop))
  }

  function ServerEnds(sv: Server, broken: bool): Server {
    if sv.main.AwaitOpen? then
      sv.(main := if broken then Sending(SReset, Return) else SDone)
    else if broken then
      sv.(shut := true, main := Sending(SReset, BreakLoop))
    else
      Break(sv.(shut := true))
  }

  /** Sending is over, whether or not the frame was queued: `send` errors are ignored. */
  function AfterSending(sv: Server, next: AfterSend): Server {
    match next
    case StartRelay => sv.(main := SWaiting, reader := Reading)
    case NextFrame => sv.(main := SWaiting)
    case BreakLoop => Break(sv)
    case Return => sv.(main := SDone)
  }

  function ServerApply(s: State, a: Action): State
    requires ServerEnabled(s, a)
  {
    var sv := s.sv;
    match a
    case ServerReceive => s.(sv := ServerHandles(sv, s.up.net[0]), up := Receive(s.up))
    case ServerSeesEnd => s.(sv := ServerEnds(sv, s.up.end.Broken?))
    case ServerTimeout =>
      s.(sv := sv.(main := Sending(SReset, if sv.main.AwaitOpen? then Return else BreakLoop)))
    case DialOk => s.(sv := sv.(main := WritingFirst(sv.main.first)))
    case DialFails => s.(sv := sv.(main := Sending(SOpenResult(false), Return)))
    case ServerWrite(n) =>
      var p := sv.main.pending;
      s.(sv := sv.(main := if sv.main.WritingFirst? then WritingFirst(p[n..]) else SWriting(p[n..]),
                   written := sv.written + p[..n]))
    case ServerWriteDone =>
      s.(sv := sv.(main := if sv.main.WritingFirst? then Sending(SOpenResult(true), StartRelay) else SWaiting))
    case ServerWriteFails =>
      s.(sv := sv.(main := if sv.main.WritingFirst? then Sending(SOpenResult(false), Return)
                           else Sending(SReset, BreakLoop)))
    case ServerSend =>
      var f := sv.main.frame;
      var queued := if sv.main.next.NextFrame? || sv.main.next.BreakLoop? then sv.fromMain + [f] else sv.fromMain;
      s.(sv := AfterSending(sv, sv.main.next).(fromMain := queued), down := Send(s.down, f))
    case ServerSendFails => s.(sv := AfterSending(sv, sv.main.next))
    case TargetRead(n) =>
      var chunk := s.cfg.target[sv.read..sv.read + n];
      s.(sv := sv.(reader := Holding(SData(chunk)), read := sv.read + n))
    case TargetEof => s.(sv := sv.(reader := Holding(SHalfClose)))
    case TargetReadFails => s.(sv := sv.(reader := Holding(SReset)))
    case TargetSend =>
      var f := sv.reader.frame;
      s.(sv := sv.(reader := if f.SData? then Reading else Finished, fromReader := sv.fromReader + [f]),
         down := Send(s.down, f))
    case TargetSendFails => s.(sv := sv.(reader := Stopped(ServerBytes(sv.reader.frame))))
    case TargetCancel => s.(sv := sv.(reader := Stopped(Carried(ServerBytes, sv.reader))))
  }

  // ----- runs

  predicate Enabled(s: State, a: Action) {
    ClientEnabled(s, a) || TransportEnabled(s, a) || ServerEnabled(s, a)
  }

  function Apply(s: State, a: Action): State
    requires Enabled(s, a)
  {
    if ClientEnabled(s, a) then ClientApply(s, a)
    else if TransportEnabled(s, a) then TransportApply(s, a)
    else ServerApply(s, a)
  }

  predicate Legal(s: State, run: seq<Action>)
    decreases run
  {
    run == [] || (Enabled(s, run[0]) && Legal(Apply(s, run[0]), run[1..]))
  }

  function Run(s: State, run: seq<Action>): State
    requires Legal(s, run)
    decreases run
  {
    if run == [] then s else Run(Apply(s, run[0]), run[1..])
  }

  /** Something goes wrong outside the two programs: a connection or socket fails, the target
      cannot be reached, or the idle timer fires. */
  predicate Fault(a: Action) {
    match a
    case ClientWriteFails | ClientShutdownFails | ClientCallFails => true
    case UploadReadFails | TargetReadFails | UpCut(_, _) | DownCut(_, _) => true
    case ServerTimeout | DialFails | ServerWriteFails => true
    case _ => false
  }

  predicate FaultFree(run: seq<Action>) {
    forall i :: 0 <= i < |run| ==> !Fault(run[i])
  }

  /** All four tasks are over. */
  predicate Final(s: State) {
    s.c.main.CDone? && !Active(s.c.uploader) && s.sv.main.SDone? && !Active(s.sv.reader)
  }

  /** What the server's tasks may do, nobody else may. */
  lemma ServerActs(s: State, a: Action)
    requires ServerEnabled(s, a)
    ensures Enabled(s, a) && Apply(s, a) == ServerApply(s, a)
  {
    hide ClientApply, TransportApply, ServerApply;
  }

  /** A run and then another is a run. */
  lemma {:induction false} Join(s: State, a: seq<Action>, b: seq<Action>)
    requires Legal(s, a) && Legal(Run(s, a), b)
    ensures Legal(s, a + b) && Run(s, a + b) == Run(Run(s, a), b)
    decreases a
  {
    hide Enabled, Apply;
    if a == [] {
      assert a + b == b;
    } else {
      assert (a + b)[1..] == a[1..] + b;
      Join(Apply(s, a[0]), a[1..], b);
    }
  }

  lemma NoSteps(s: State)
    ensures Legal(s, []) && Run(s, []) == s && FaultFree([])
  {
  }

  /** One more step at the end of a run. */
  lemma {:induction false} Extend(s: State, run: seq<Action>, a: Action) returns (run': seq<Action>)
    requires Legal(s, run) && Enabled(Run(s, run), a)
    ensures run' == run + [a] && Legal(s, run') && Run(s, run') == Apply(Run(s, run), a)
    decreases run
  {
    hide Enabled, Apply;
    run' := run + [a];
    if run == [] {
      assert run' == [a] && [a][1..] == [];
      assert Run(Apply(s, a), []) == Apply(s, a);
    } else {
      var rest := Extend(Apply(s, run[0]), run[1..], a);
      assert run'[1..] == rest;
    }
  }
}
