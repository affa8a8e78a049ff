/** The tunnel never gets stuck and never runs for ever. */
module RelayProgress {
  import opened Bytes
  import opened Channel
  import opened Frames
  import opened Relay
  import opened RelayInvariant
  import opened RelayTheorems

  // ----- a measure that every step lowers

  function EndRank(e: End): nat {
    match e
    case Flowing => 2
    case Ended => 1
    case Broken => 0
  }

  /** `base` weighs a frame in flight; a queued one weighs one more. */
  function ChannelRank<F>(carried: F -> seq<byte>, base: nat, ch: Channel<F>): nat {
    |Payload(carried, ch.net)| + base * |ch.net| + |Payload(carried, ch.queue)| + (base + 1) * |ch.queue| + EndRank(ch.end)
  }

  /** `hand` weighs a frame a reading task holds. */
  function TaskRank<F>(carried: F -> seq<byte>, data: F -> bool, hand: nat, t: Task<F>): nat {
    match t
    case Idle => hand + 3
    case Reading => hand + 2
    case Holding(f) => |carried(f)| + (if data(f) then 2 * hand + 2 else hand)
    case Finished => 0
    case Stopped(_) => 0
  }

  function ClientMainRank(m: ClientMain): nat {
    match m
    case AwaitResult => 3
    case CWaiting => 2
    case CWriting(p) => 3 + |p|
    case CDone(_) => 0
  }

  function ServerMainRank(m: ServerMain): nat {
    match m
    case AwaitOpen => 7
    case Dialing(first) => 12 + |first|
    case WritingFirst(p) => 11 + |p|
    case SWaiting => 6
    case SWriting(p) => 7 + |p|
    case Sending(_, StartRelay) => 10
    case Sending(_, NextFrame) => 10
    case Sending(_, BreakLoop) => 5
    case Sending(_, Return) => 5
    case SDone => 0
  }

  function Unread(s: State): nat
    requires s.c.read <= |s.cfg.local| && s.sv.read <= |s.cfg.target|
  {
    10 * (|s.cfg.local| - s.c.read) + 6 * (|s.cfg.target| - s.sv.read)
  }

  function Rank(s: State): nat
    requires s.c.read <= |s.cfg.local| && s.sv.read <= |s.cfg.target|
  {
    Unread(s)
    + ChannelRank(ClientBytes, 6, s.up) + ChannelRank(ServerBytes, 2, s.down)
    + TaskRank(ClientBytes, (f: ClientFrame) => f.CData?, 8, s.c.uploader)
    + TaskRank(ServerBytes, (f: ServerFrame) => f.SData?, 4, s.sv.reader)
    + ClientMainRank(s.c.main) + ServerMainRank(s.sv.main)
  }

  lemma SendRank<F>(carried: F -> seq<byte>, base: nat, ch: Channel<F>, f: F)
    ensures ChannelRank(carried, base, Send(ch, f)) == ChannelRank(carried, base, ch) + |carried(f)| + base + 1
  {
    PayloadSnoc(carried, ch.queue, f);
  }

  lemma MoveRank<F>(carried: F -> seq<byte>, base: nat, ch: Channel<F>)
    requires CanMove(ch)
    ensures ChannelRank(carried, base, Move(ch)) < ChannelRank(carried, base, ch)
  {
    hide Payload;
    var f := ch.queue[0];
    PayloadSnoc(carried, ch.net, f);
    PayloadHead(carried, ch.queue);
    Weigh(base, |ch.net|, |ch.queue|);
  }

  /** A frame weighs one less in flight than in the queue. */
  lemma Weigh(base: nat, flying: nat, queued: nat)
    requires queued > 0
    ensures base * (flying + 1) + (base + 1) * (queued - 1) == base * flying + (base + 1) * queued - 1
  {
  }

  lemma ReceiveRank<F>(carried: F -> seq<byte>, base: nat, ch: Channel<F>)
    requires CanReceive(ch)
    ensures ChannelRank(carried, base, Receive(ch)) + |carried(ch.net[0])| + base == ChannelRank(carried, base, ch)
  {
    PayloadHead(carried, ch.net);
  }

  lemma CutRank<F>(carried: F -> seq<byte>, base: nat, ch: Channel<F>, keep: nat, end: End)
    requires CanCut(ch, keep, end)
    ensures ChannelRank(carried, base, Cut(ch, keep, end)) < ChannelRank(carried, base, ch)
  {
    PayloadOfPrefix(carried, ch.net, keep);
    assert base * keep <= base * |ch.net|;
  }

  ghost predicate Sane(s: State) {
    s.c.read <= |s.cfg.local| && s.sv.read <= |s.cfg.target|
  }

  lemma ClientStepDescends(s: State, a: Action)
    requires Sane(s) && ClientEnabled(s, a)
    requires s.c.uploader.Holding? ==> s.c.uploader.frame.CData? || UpTerminal(s.c.uploader.frame)
    requires s.c.main.AwaitResult? ==> s.c.uploader.Idle?
    ensures Sane(ClientApply(s, a)) && Rank(ClientApply(s, a)) < Rank(s)
  {
    hide ClientApply, ClientEnabled, Rank;
    if UploaderTask(a) {
      UploaderTaskDescends(s, a);
    } else {
      ReceiveLoopDescends(s, a);
    }
  }

  lemma UploaderTaskDescends(s: State, a: Action)
    requires Sane(s) && ClientEnabled(s, a) && UploaderTask(a)
    requires s.c.uploader.Holding? ==> s.c.uploader.frame.CData? || UpTerminal(s.c.uploader.frame)
    ensures Sane(ClientApply(s, a)) && Rank(ClientApply(s, a)) < Rank(s)
  {
    hide ChannelRank, Payload, ClientMainRank, ServerMainRank;
    if a.UploadSend? {
      SendRank(ClientBytes, 6, s.up, s.c.uploader.frame);
    }
  }

  lemma ReceiveLoopDescends(s: State, a: Action)
    requires Sane(s) && ClientEnabled(s, a) && !UploaderTask(a)
    requires s.c.main.AwaitResult? ==> s.c.uploader.Idle?
    ensures Sane(ClientApply(s, a)) && Rank(ClientApply(s, a)) < Rank(s)
  {
    hide ChannelRank, Payload;
    if a.ClientReceive? || a.ClientShutdownFails? {
      ReceiveRank(ServerBytes, 2, s.down);
    }
  }

  lemma TransportStepDescends(s: State, a: Action)
    requires Sane(s) && TransportEnabled(s, a)
    ensures Sane(TransportApply(s, a)) && Rank(TransportApply(s, a)) < Rank(s)
  {
    match a
    case UpMove => MoveRank(ClientBytes, 6, s.up);
    case DownMove => MoveRank(ServerBytes, 2, s.down);
    case UpCut(k, e) => CutRank(ClientBytes, 6, s.up, k, e);
    case DownCut(k, e) => CutRank(ServerBytes, 2, s.down, k, e);
    case _ =>
  }

  lemma MainStepDescends(s: State, a: Action)
    requires Sane(s) && ServerEnabled(s, a) && !TargetTask(a)
    requires s.sv.main.Sending? ==> ServerBytes(s.sv.main.frame) == [] && (s.sv.main.next.StartRelay? ==> s.sv.reader.Idle?)
    ensures Sane(ServerApply(s, a)) && Rank(ServerApply(s, a)) < Rank(s)
  {
    hide ServerApply, Rank;
    match a
    case ServerReceive => FrameHandledDescends(s);
    case ServerSend | ServerSendFails => MainSendDescends(s, a);
    case _ => MainLocalDescends(s, a);
  }

  lemma FrameHandledDescends(s: State)
    requires Sane(s) && ServerEnabled(s, ServerReceive)
    ensures Sane(ServerApply(s, ServerReceive)) && Rank(ServerApply(s, ServerReceive)) < Rank(s)
  {
    hide ChannelRank, Payload, TaskRank;
    ReceiveRank(ClientBytes, 6, s.up);
    assert ServerApply(s, ServerReceive).sv.reader == s.sv.reader;
  }

  lemma MainSendDescends(s: State, a: Action)
    requires Sane(s) && ServerEnabled(s, a) && (a.ServerSend? || a.ServerSendFails?)
    requires ServerBytes(s.sv.main.frame) == [] && (s.sv.main.next.StartRelay? ==> s.sv.reader.Idle?)
    ensures Sane(ServerApply(s, a)) && Rank(ServerApply(s, a)) < Rank(s)
  {
    hide ChannelRank, Payload;
    if a.ServerSend? {
      SendRank(ServerBytes, 2, s.down, s.sv.main.frame);
    }
  }

  lemma MainLocalDescends(s: State, a: Action)
    requires Sane(s) && ServerEnabled(s, a) && !TargetTask(a)
    requires !a.ServerReceive? && !a.ServerSend? && !a.ServerSendFails?
    ensures Sane(ServerApply(s, a)) && Rank(ServerApply(s, a)) < Rank(s)
  {
    hide ChannelRank, Payload, TaskRank;
    assert ServerApply(s, a).sv.reader == s.sv.reader;
  }

  lemma TargetStepDescends(s: State, a: Action)
    requires Sane(s) && ServerEnabled(s, a) && TargetTask(a)
    requires s.sv.reader.Holding? ==> s.sv.reader.frame.SData? || DownTerminal(s.sv.reader.frame)
    ensures Sane(ServerApply(s, a)) && Rank(ServerApply(s, a)) < Rank(s)
  {
    hide ChannelRank, Payload;
    match a
    case TargetSend => SendRank(ServerBytes, 2, s.down, s.sv.reader.frame);
    case _ =>
  }

  /** Every step, faults included, lowers the measure. */
  lemma {:induction false} StepDescends(s: State, a: Action)
    requires Inv(s) && Enabled(s, a)
    ensures Sane(s) && Sane(Apply(s, a)) && Rank(Apply(s, a)) < Rank(s)
  {
    hide Rank, ClientApply, TransportApply, ServerApply, ClientEnabled, TransportEnabled, ServerEnabled;
    hide ClientGrammar, UpHonest, ServerGrammar, DownHonest, Relayed;
    hide Accepted, HasHalfClose, StillUploading, StillReading;
    if ClientEnabled(s, a) {
      ClientStepDescends(s, a);
    } else if TransportEnabled(s, a) {
      TransportStepDescends(s, a);
    } else if TargetTask(a) {
      TargetStepDescends(s, a);
    } else {
      MainStepDescends(s, a);
    }
  }

  /** No run from a reachable state is longer than the measure. */
  lemma {:induction false} RunsAreFinite(s: State, run: seq<Action>)
    requires Inv(s) && Legal(s, run)
    ensures Sane(s) && |run| <= Rank(s)
    decreases run
  {
    hide Rank, Inv, Enabled, Apply;
    if run != [] {
      StepKeeps(s, run[0]);
      StepDescends(s, run[0]);
      RunsAreFinite(Apply(s, run[0]), run[1..]);
    } else {
      ReadsAreBounded(s);
    }
  }

  lemma ReadsAreBounded(s: State)
    requires Inv(s)
    ensures Sane(s)
  {
    hide ClientGrammar, UpHonest, ServerGrammar, DownHonest, LoopInv, MainInv;
  }

  // ----- no deadlock

  /** An active task can always take a step, or the transport can make room for it. */
  lemma UploaderSteps(s: State) returns (a: Action)
    requires Inv(s) && Active(s.c.uploader)
    ensures Enabled(s, a) && !Fault(a)
  {
    hide Inv;
    ReadsAreBounded(s);
    if s.c.uploader.Reading? {
      a := if s.c.read < |s.cfg.local| then UploadRead(1) else UploadEof;
    } else {
      a := if !s.up.end.Flowing? then UploadSendFails else if CanSend(s.up) then UploadSend else UpMove;
    }
  }

  lemma ReaderSteps(s: State) returns (a: Action)
    requires Inv(s) && Active(s.sv.reader)
    ensures Enabled(s, a) && !Fault(a)
  {
    hide Inv;
    ReadsAreBounded(s);
    if s.sv.reader.Reading? {
      a := if s.sv.read < |s.cfg.target| then TargetRead(1) else TargetEof;
    } else {
      a := if !s.down.end.Flowing? then TargetSendFails else if CanSend(s.down) then TargetSend else DownMove;
    }
  }

  lemma SendingSteps(s: State) returns (a: Action)
    requires s.sv.main.Sending?
    ensures Enabled(s, a) && !Fault(a)
  {
    a := if !s.down.end.Flowing? then ServerSendFails else if CanSend(s.down) then ServerSend else DownMove;
  }

  /** The target's write side is open while the main loop has something to write. */
  lemma WriterStillOpen(s: State)
    requires Inv(s) && (s.sv.main.Dialing? || s.sv.main.WritingFirst? || s.sv.main.SWriting?)
    ensures !s.sv.shut
  {
    hide UploaderInv, LoopInv, ReaderInv, HasHalfClose, Accepted;
    ServerMeetsNoError(s);
  }

  /** The server's main loop is not waiting: it can go on. */
  lemma ServerMainSteps(s: State) returns (a: Action)
    requires Inv(s) && (s.sv.main.Dialing? || s.sv.main.WritingFirst? || s.sv.main.SWriting?)
    ensures Enabled(s, a) && !Fault(a)
  {
    hide Inv;
    WriterStillOpen(s);
    a := if s.sv.main.Dialing? then DialOk else if s.sv.main.pending == [] then ServerWriteDone else ServerWrite(1);
  }

  /** A reading task that has finished left its terminal frame in the log. */
  lemma TerminalIsLogged(w: seq<ServerFrame>, xs: seq<ServerFrame>, ys: seq<ServerFrame>)
    requires Interleaves(w, xs, ys) && xs != []
    ensures xs[|xs| - 1] in w
    decreases |w|
  {
    var k := |w| - 1;
    if !(xs[|xs| - 1] == w[k] && Interleaves(w[..k], xs[..|xs| - 1], ys)) {
      TerminalIsLogged(w[..k], xs, ys[..|ys| - 1]);
    }
  }

  /** When everything the server ever queued has been received and the client's loop still waits,
      the server is not quietly waiting too with its reader gone. */
  lemma NotBothWaiting(s: State)
    requires Inv(s) && s.down.end.Flowing? && s.down.net == [] && s.down.queue == []
    requires s.c.main.AwaitResult? || s.c.main.CWaiting?
    requires s.sv.main.SWaiting?
    ensures Active(s.sv.reader)
  {
    hide UploaderInv, ReaderInv, LoopInv, MainInv, Fifo, Got;
    AllReceived(s.down);
    StillListening(s.c, Got(s.down));
    WaitingRelays(s.sv, s.down.log, Got(s.up));
    ReaderGone(s.cfg, s.sv, s.down.log);
  }

  lemma AllReceived<F>(ch: Channel<F>)
    requires Fifo(ch) && ch.end.Flowing? && ch.net == [] && ch.queue == []
    ensures Got(ch) == ch.log
  {
    assert ch.log[ch.handled..] == [];
  }

  /** The client's loop has met no terminal frame yet. */
  lemma StillListening(c: Client, got: seq<ServerFrame>)
    requires LoopInv(c, got) && (c.main.AwaitResult? || c.main.CWaiting?)
    ensures got == [] || forall i :: 1 <= i < |got| ==> !DownTerminal(got[i])
  {
  }

  lemma WaitingRelays(sv: Server, sent: seq<ServerFrame>, got: seq<ClientFrame>)
    requires MainInv(sv, sent, got) && sv.main.SWaiting?
    ensures !sv.reader.Idle? && !sv.abort
  {
    hide Accepted, HasHalfClose, OnlyPongs;
  }

  /** On a live stream a spawned reader that was not aborted either runs on or has left its
      terminal frame among the frames after the OpenResult. */
  lemma ReaderGone(cfg: Config, sv: Server, sent: seq<ServerFrame>)
    requires ReaderInv(cfg, sv, sent, true) && !sv.reader.Idle? && !sv.abort
    ensures sent != []
    ensures Active(sv.reader) || exists i :: 1 <= i < |sent| && DownTerminal(sent[i])
  {
    hide DownHonest, ReaderGrammar, MainGrammar, Interleaves, StillReading, DownBytes;
    if sv.reader.Finished? {
      TerminalIsLogged(sent[1..], sv.fromReader, sv.fromMain);
      var i :| 0 <= i < |sent[1..]| && sent[1..][i] == sv.fromReader[|sv.fromReader| - 1];
      assert sent[i + 1] == sent[1..][i];
    }
  }

  lemma OpenStillComing(s: State)
    requires Inv(s) && s.sv.main.AwaitOpen? && s.up.end.Flowing?
    ensures s.up.net != [] || s.up.queue != []
  {
    hide LoopInv, ReaderInv, UpHonest, StillUploading, Accepted, HasHalfClose;
    assert s.up.log != [] by {
      GrammarStarts(s.cfg, s.up.log);
    }
  }

  lemma GrammarStarts(cfg: Config, sent: seq<ClientFrame>)
    requires ClientGrammar(cfg, sent)
    ensures sent != []
  {
  }

  /** The client's loop waits: something reaches it, or something else can move. */
  lemma WaitingClientSteps(s: State) returns (a: Action)
    requires Inv(s) && (s.c.main.AwaitResult? || s.c.main.CWaiting?)
    requires s.sv.main.AwaitOpen? || s.sv.main.SWaiting? || s.sv.main.SDone?
    requires !Active(s.c.uploader) && !Active(s.sv.reader)
    ensures Enabled(s, a) && !Fault(a)
  {
    hide Inv;
    if CanReceive(s.down) {
      a := ClientReceive;
    } else if !s.down.end.Flowing? {
      a := ClientSeesEnd;
    } else if s.down.queue != [] {
      a := DownMove;
    } else if s.sv.main.SDone? {
      a := DownClose;
    } else if s.sv.main.SWaiting? {
      NotBothWaiting(s);
      a := DownMove;
    } else if CanReceive(s.up) {
      a := ServerReceive;
    } else if s.up.end.Flowing? {
      OpenStillComing(s);
      a := UpMove;
    } else {
      a := ServerSeesEnd;
    }
  }

  /** A tunnel in which some task is still alive can take a step that is not a fault. */
  lemma NeverStuck(s: State) returns (a: Action)
    requires Inv(s) && !Final(s)
    ensures Enabled(s, a) && !Fault(a)
  {
    hide Inv;
    var m := s.sv.main;
    if Active(s.c.uploader) {
      a := UploaderSteps(s);
    } else if Active(s.sv.reader) {
      a := ReaderSteps(s);
    } else if m.Sending? {
      a := SendingSteps(s);
    } else if m.Dialing? || m.WritingFirst? || m.SWriting? {
      a := ServerMainSteps(s);
    } else if s.c.main.CWriting? {
      a := if s.c.main.pending == [] then ClientWriteDone else ClientWrite(1);
    } else if !s.c.main.CDone? {
      a := WaitingClientSteps(s);
    } else {
      a := if CanReceive(s.up) then ServerReceive
           else if !s.up.end.Flowing? then ServerSeesEnd
           else if s.up.queue != [] then UpMove
           else UpClose;
    }
  }

  /** From every reachable state the tunnel can run to its end without any further fault. */
  lemma {:induction false} CanAlwaysFinish(s: State) returns (run: seq<Action>)
    requires Inv(s) && Sane(s)
    ensures Legal(s, run) && FaultFree(run) && Final(Run(s, run))
    decreases Rank(s)
  {
    hide Inv, Rank, Enabled, Apply, Final;
    if Final(s) {
      run := [];
    } else {
      var a := NeverStuck(s);
      StepKeeps(s, a);
      StepDescends(s, a);
      var rest := CanAlwaysFinish(Apply(s, a));
      run := [a] + rest;
      assert run[1..] == rest;
    }
  }

  /** The transport can make room for one more frame. */
  lemma RoomInQueue(s: State) returns (more: seq<Action>)
    requires Fifo(s.down) && s.down.end.Flowing?
    ensures Legal(s, more) && FaultFree(more) && CanSend(Run(s, more).down)
    ensures Run(s, more) == s.(down := Run(s, more).down) && Run(s, more).down.log == s.down.log
  {
    hide Legal, Run;
    NoSteps(s);
    more := [];
    if |s.down.queue| == OUTBOUND_QUEUE {
      more := Extend(s, more, DownMove);
    }
  }

  // ----- the download needs no uploader

  /** A step of the target reader, of the stream to the client, or of the receive loop. */
  predicate DownloadStep(a: Action) {
    a.TargetRead? || a.TargetEof? || a.TargetSend? || a.DownMove? || a.ClientReceive? || a.ClientWrite? || a.ClientWriteDone?
  }

  predicate DownloadSteps(run: seq<Action>) {
    forall i :: 0 <= i < |run| ==> DownloadStep(run[i])
  }

  /** The tunnel relays and no error is on its way to the client. */
  ghost predicate Downloading(s: State) {
    && (s.c.main.CWaiting? || s.c.main.CWriting?)
    && s.down.end.Flowing? && SReset !in s.down.log
    && (s.sv.reader.Reading? || (s.sv.reader.Holding? && !s.sv.reader.frame.SReset?) || s.sv.reader.Finished?)
  }

  /** A reader that has finished without a Reset has left its half-close in the log. */
  lemma HalfCloseIsLogged(cfg: Config, sv: Server, sent: seq<ServerFrame>)
    requires ReaderInv(cfg, sv, sent, true) && sv.reader.Finished? && SReset !in sent
    ensures SHalfClose in sent
  {
    hide DownHonest, ReaderGrammar, MainGrammar, Interleaves, StillReading, DownBytes;
    TerminalIsLogged(sent[1..], sv.fromReader, sv.fromMain);
    var i :| 0 <= i < |sent[1..]| && sent[1..][i] == sv.fromReader[|sv.fromReader| - 1];
    assert sent[i + 1] == sent[1..][i];
  }

  /** While a download is under way, something of it can move. */
  lemma DownloadMoves(s: State) returns (a: Action)
    requires Inv(s) && Downloading(s)
    ensures Enabled(s, a) && DownloadStep(a) && !Fault(a)
  {
    hide Inv;
    ReadsAreBounded(s);
    if s.c.main.CWriting? {
      a := if s.c.main.pending == [] then ClientWriteDone else ClientWrite(1);
    } else if s.down.net != [] {
      a := ClientReceive;
    } else if s.down.queue != [] {
      a := DownMove;
    } else {
      ReaderHasMore(s);
      a := if s.sv.reader.Holding? then TargetSend
           else if s.sv.read < |s.cfg.target| then TargetRead(1) else TargetEof;
    }
  }

  lemma ReaderHasMore(s: State)
    requires Inv(s) && Downloading(s) && s.c.main.CWaiting? && s.down.net == [] && s.down.queue == []
    ensures Active(s.sv.reader)
  {
    hide UploaderInv, ReaderInv, LoopInv, MainInv, Fifo, Got;
    AllReceived(s.down);
    StillListening(s.c, Got(s.down));
    if s.sv.reader.Finished? {
      HalfCloseIsLogged(s.cfg, s.sv, s.down.log);
      var i :| 0 <= i < |s.down.log| && s.down.log[i] == SHalfClose;
      WaitingOpened(s.c, Got(s.down));
    }
  }

  lemma WaitingOpened(c: Client, got: seq<ServerFrame>)
    requires LoopInv(c, got) && c.main.CWaiting?
    ensures got != [] && got[0].SOpenResult?
  {
  }

  /** It goes on, or is complete; uploader and main loop stand still. */
  lemma DownloadStepKeeps(s: State, a: Action)
    requires Inv(s) && Downloading(s) && Enabled(s, a) && DownloadStep(a)
    ensures var s' := Apply(s, a);
            && (Downloading(s') || s'.c.main == CDone(Completed))
            && s'.c.uploader == s.c.uploader && s'.sv.main == s.sv.main && s'.cfg == s.cfg
  {
    hide Inv, Downloading, ClientApply, ServerApply, TransportApply;
    if a.ClientReceive? || a.ClientWrite? || a.ClientWriteDone? {
      DownloadClient(s, a);
    } else if a.DownMove? {
      DownloadMove(s);
    } else {
      OnlyServerReads(s, a);
      ServerActs(s, a);
      DownloadReader(s, a);
    }
  }

  lemma OnlyServerReads(s: State, a: Action)
    requires Enabled(s, a) && (a.TargetRead? || a.TargetEof? || a.TargetSend?)
    ensures ServerEnabled(s, a)
  {
  }

  lemma DownloadClient(s: State, a: Action)
    requires Inv(s) && Downloading(s) && ClientEnabled(s, a) && (a.ClientReceive? || a.ClientWrite? || a.ClientWriteDone?)
    ensures var s' := ClientApply(s, a);
            && (Downloading(s') || s'.c.main == CDone(Completed))
            && s'.c.uploader == s.c.uploader && s'.sv.main == s.sv.main && s'.cfg == s.cfg
  {
    hide UploaderInv, LoopInv, MainInv, ReaderInv;
    if a.ClientReceive? {
      ClientMeetsNoError(s);
      NextFrameInLog(s.down);
    }
  }

  lemma DownloadMove(s: State)
    requires Downloading(s) && TransportEnabled(s, DownMove)
    ensures var s' := TransportApply(s, DownMove);
            Downloading(s') && s'.c == s.c && s'.sv == s.sv && s'.cfg == s.cfg
  {
  }

  lemma DownloadReader(s: State, a: Action)
    requires Downloading(s) && ServerEnabled(s, a) && (a.TargetRead? || a.TargetEof? || a.TargetSend?)
    ensures var s' := ServerApply(s, a);
            Downloading(s') && s'.c == s.c && s'.sv.main == s.sv.main && s'.cfg == s.cfg
  {
  }

  /** From every reachable state in which the tunnel relays, the target reader, the stream and the
      receive loop can complete the download by themselves, with the local side silent and the
      main loop waiting. */
  lemma {:induction false} DownloadNeedsNoUpload(s: State) returns (run: seq<Action>)
    requires Inv(s) && Sane(s) && (Downloading(s) || s.c.main == CDone(Completed))
    ensures Legal(s, run) && DownloadSteps(run)
    ensures var t := Run(s, run);
            && t.c.main == CDone(Completed) && t.c.written == s.cfg.target
            && t.c.uploader == s.c.uploader && t.sv.main == s.sv.main
    decreases Rank(s)
  {
    hide Inv, Rank, Enabled, Apply, Downloading;
    if s.c.main == CDone(Completed) {
      run := [];
      CompletedIsWhole(s);
    } else {
      var a := DownloadMoves(s);
      StepKeeps(s, a);
      StepDescends(s, a);
      DownloadStepKeeps(s, a);
      var rest := DownloadNeedsNoUpload(Apply(s, a));
      run := [a] + rest;
      assert run[1..] == rest;
    }
  }

  lemma CompletedIsWhole(s: State)
    requires Inv(s) && s.c.main == CDone(Completed)
    ensures s.c.written == s.cfg.target
  {
    hide UploaderInv, ReaderInv, MainInv, Relayed, DownBytes;
    EndOfDownload(s);
  }
}
