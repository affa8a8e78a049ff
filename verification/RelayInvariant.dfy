/** What every reachable state of the tunnel satisfies.  The client's part speaks only of the
    client, of what it has sent and of what it has received; likewise the server's.  The two
    meet in the theorems, through the FIFO channels. */
module RelayInvariant {
  import opened Bytes
  import opened Channel
  import opened Frames
  import opened Relay

  // ----- the client's part

  predicate UpTerminal(f: ClientFrame) {
    f.CHalfClose? || f.CReset?
  }

  predicate GoodChunk(d: seq<byte>) {
    1 <= |d| <= DATA_CHUNK_SIZE
  }

  /** Open, then only data. */
  ghost predicate StillUploading(cfg: Config, sent: seq<ClientFrame>) {
    && sent != [] && sent[0] == COpen(cfg.first)
    && (forall i :: 1 <= i < |sent| ==> sent[i].CData? && GoodChunk(sent[i].data))
  }

  /** Open Data* (HalfClose | Reset)?, every chunk of 1 to 64 KiB. */
  ghost predicate ClientGrammar(cfg: Config, sent: seq<ClientFrame>) {
    || StillUploading(cfg, sent)
    || (|sent| >= 2 && UpTerminal(sent[|sent| - 1]) && StillUploading(cfg, sent[..|sent| - 1]))
  }

  /** A HalfClose comes after everything the local side will ever write. */
  ghost predicate UpHonest(cfg: Config, sent: seq<ClientFrame>) {
    forall j :: 0 <= j < |sent| && sent[j].CHalfClose? ==> UpBytes(sent[..j]) == cfg.first + cfg.local
  }

  ghost predicate UploaderInv(cfg: Config, read: nat, uploader: Task<ClientFrame>, sent: seq<ClientFrame>) {
    && read <= |cfg.local|
    && ClientGrammar(cfg, sent)
    && UpHonest(cfg, sent)
    && UpBytes(sent) + Carried(ClientBytes, uploader) == cfg.first + cfg.local[..read]
    && match uploader
       case Idle => sent == [COpen(cfg.first)]
       case Reading => StillUploading(cfg, sent)
       case Holding(f) =>
         && StillUploading(cfg, sent)
         && (f.CData? || UpTerminal(f))
         && (f.CData? ==> GoodChunk(f.data))
         && (f.CHalfClose? ==> read == |cfg.local|)
       case Finished => |sent| >= 2 && UpTerminal(sent[|sent| - 1])
       case Stopped(lost) => StillUploading(cfg, sent)
  }

  /** What the client has received while its loop still runs: a good OpenResult, then only data
      and pongs. */
  ghost predicate Relayed(got: seq<ServerFrame>) {
    && got != [] && got[0] == SOpenResult(true)
    && (forall i :: 1 <= i < |got| ==> got[i].SData? || got[i].SPong?)
  }

  ghost predicate LoopInv(c: Client, got: seq<ServerFrame>) {
    && (!c.uploader.Idle? ==> got != [] && got[0] == SOpenResult(true))
    && (c.abort <==> c.main.CDone? && !c.main.outcome.Failed?)
    && (c.shut <==> c.main == CDone(Completed))
    && match c.main
       case AwaitResult => got == [] && c.uploader.Idle? && c.written == []
       case CWaiting => Relayed(got) && c.written == DownBytes(got) && !c.uploader.Idle?
       case CWriting(p) => Relayed(got) && c.written + p == DownBytes(got) && !c.uploader.Idle?
       case CDone(Completed) =>
         && got != [] && got[|got| - 1].SHalfClose? && Relayed(got[..|got| - 1])
         && c.written == DownBytes(got)
       case CDone(StreamEnded) => Relayed(got) && c.written == DownBytes(got)
       case CDone(Failed) => c.written <= DownBytes(got)
  }

  // ----- the server's part

  predicate DownTerminal(f: ServerFrame) {
    f.SHalfClose? || f.SReset?
  }

  /** `w` is an interleaving of `xs` and `ys`. */
  ghost predicate Interleaves<F>(w: seq<F>, xs: seq<F>, ys: seq<F>)
    decreases |w|
  {
    if w == [] then xs == [] && ys == []
    else
      var last, front := w[|w| - 1], w[..|w| - 1];
      || (xs != [] && xs[|xs| - 1] == last && Interleaves(front, xs[..|xs| - 1], ys))
      || (ys != [] && ys[|ys| - 1] == last && Interleaves(front, xs, ys[..|ys| - 1]))
  }

  ghost predicate StillReading(fs: seq<ServerFrame>) {
    forall i :: 0 <= i < |fs| ==> fs[i].SData? && GoodChunk(fs[i].data)
  }

  /** Data* (HalfClose | Reset)?. */
  ghost predicate ReaderGrammar(fs: seq<ServerFrame>) {
    StillReading(fs) || (fs != [] && DownTerminal(fs[|fs| - 1]) && StillReading(fs[..|fs| - 1]))
  }

  ghost predicate OnlyPongs(fs: seq<ServerFrame>) {
    forall i :: 0 <= i < |fs| ==> fs[i].SPong?
  }

  /** Pong* Reset?. */
  ghost predicate MainGrammar(fs: seq<ServerFrame>) {
    OnlyPongs(fs) || (fs != [] && fs[|fs| - 1].SReset? && OnlyPongs(fs[..|fs| - 1]))
  }

  /** Everything the server may have sent: nothing, one early Reset, a failed OpenResult, or a
      good OpenResult followed by an interleaving of its two tasks' frames. */
  ghost predicate ServerGrammar(sent: seq<ServerFrame>, fromReader: seq<ServerFrame>, fromMain: seq<ServerFrame>) {
    || (sent == [] && fromReader == [] && fromMain == [])
    || ((sent == [SReset] || sent == [SOpenResult(false)]) && fromReader == [] && fromMain == [])
    || (&& sent != [] && sent[0] == SOpenResult(true)
        && Interleaves(sent[1..], fromReader, fromMain)
        && ReaderGrammar(fromReader) && MainGrammar(fromMain))
  }

  /** A HalfClose comes after everything the target will ever write. */
  ghost predicate DownHonest(cfg: Config, sent: seq<ServerFrame>) {
    forall j :: 0 <= j < |sent| && sent[j].SHalfClose? ==> DownBytes(sent[..j]) == cfg.target
  }

  /** The OpenResult has been handed to the queue, or could not be because the stream is gone. */
  ghost predicate Opened(sent: seq<ServerFrame>, flowing: bool) {
    if sent == [] then !flowing else sent[0] == SOpenResult(true)
  }

  ghost predicate ReaderInv(cfg: Config, sv: Server, sent: seq<ServerFrame>, flowing: bool) {
    && sv.read <= |cfg.target|
    && ServerGrammar(sent, sv.fromReader, sv.fromMain)
    && DownHonest(cfg, sent)
    && DownBytes(sent) + Carried(ServerBytes, sv.reader) == cfg.target[..sv.read]
    && (sv.abort ==> sv.main.SDone?)
    && (!sv.reader.Idle? ==> Opened(sent, flowing))
    && match sv.reader
       case Idle => sv.fromReader == [] && sv.fromMain == [] && sv.read == 0
       case Reading => StillReading(sv.fromReader)
       case Holding(f) =>
         && StillReading(sv.fromReader)
         && (f.SData? || DownTerminal(f))
         && (f.SData? ==> GoodChunk(f.data))
         && (f.SHalfClose? ==> sv.read == |cfg.target|)
       case Finished => sv.fromReader != [] && DownTerminal(sv.fromReader[|sv.fromReader| - 1])
       case Stopped(lost) => StillReading(sv.fromReader) && (sv.abort || !flowing)
  }

  /** What the server has received while it relays: Open, then data, half-closes and pings. */
  ghost predicate Accepted(got: seq<ClientFrame>) {
    && got != [] && got[0].COpen?
    && (forall i :: 1 <= i < |got| ==> got[i].CData? || got[i].CHalfClose? || got[i].CPing?)
  }

  ghost predicate HasHalfClose(got: seq<ClientFrame>) {
    exists i :: 0 <= i < |got| && got[i].CHalfClose?
  }

  ghost predicate MainInv(sv: Server, sent: seq<ServerFrame>, got: seq<ClientFrame>) {
    var relaying :=
      Accepted(got) && !sv.reader.Idle? && !sv.abort && OnlyPongs(sv.fromMain) && (sv.shut <==> HasHalfClose(got));
    var opening := sent == [] && sv.reader.Idle? && !sv.abort && !sv.shut;
    && (sent != [] && sent[0] == SOpenResult(true) ==> got != [] && got[0].COpen? && got[0].firstPayload <= sv.written)
    && match sv.main
       case AwaitOpen => opening && got == [] && sv.written == []
       case Dialing(first) => opening && got == [COpen(first)] && sv.written == []
       case WritingFirst(p) => opening && |got| == 1 && got[0].COpen? && sv.written + p == got[0].firstPayload
       case SWaiting => relaying && sv.written == UpBytes(got)
       case SWriting(p) => relaying && sv.written + p == UpBytes(got) && got[|got| - 1].CData?
       case Sending(f, StartRelay) =>
         opening && f == SOpenResult(true) && |got| == 1 && got[0].COpen? && sv.written == got[0].firstPayload
       case Sending(f, NextFrame) => relaying && f.SPong? && sv.written == UpBytes(got)
       case Sending(f, BreakLoop) =>
         !sv.reader.Idle? && !sv.abort && f == SReset && OnlyPongs(sv.fromMain) && sv.written <= UpBytes(got)
       case Sending(f, Return) =>
         opening && (f == SReset || f == SOpenResult(false)) && sv.written <= UpBytes(got)
       case SDone => (!sv.reader.Idle? ==> sv.abort) && sv.written <= UpBytes(got)
  }

  // ----- together

  /** The client's part, whoever is at the other end. */
  ghost predicate ClientInv(s: State) {
    && Fifo(s.up) && Fifo(s.down)
    && UploaderInv(s.cfg, s.c.read, s.c.uploader, s.up.log)
    && LoopInv(s.c, Got(s.down))
  }

  /** The server's part, whoever is at the other end. */
  ghost predicate ServerInv(s: State) {
    && Fifo(s.up) && Fifo(s.down)
    && ReaderInv(s.cfg, s.sv, s.down.log, s.down.end.Flowing?)
    && MainInv(s.sv, s.down.log, Got(s.up))
  }

  ghost predicate Inv(s: State) {
    ClientInv(s) && ServerInv(s)
  }

  lemma InitInv(cfg: Config)
    ensures Inv(Init(cfg))
  {
    var s := Init(cfg);
    assert s.up.log == [COpen(cfg.first)];
    PayloadSnoc(ClientBytes, [], COpen(cfg.first));
    assert [] + [COpen(cfg.first)] == [COpen(cfg.first)];
  }

  // ----- client steps

  lemma UploaderStepKeeps(cfg: Config, read: nat, u: Task<ClientFrame>, sent: seq<ClientFrame>, u': Task<ClientFrame>)
    requires UploaderInv(cfg, read, u, sent) && Active(u)
    requires
      || (u.Reading? && u' == Holding(CReset))
      || (u.Reading? && read == |cfg.local| && u' == Holding(CHalfClose))
      || u' == Stopped(Carried(ClientBytes, u))
    ensures UploaderInv(cfg, read, u', sent)
  {
  }

  lemma UploaderSpawns(cfg: Config, read: nat, sent: seq<ClientFrame>)
    requires UploaderInv(cfg, read, Idle, sent)
    ensures UploaderInv(cfg, read, Reading, sent)
  {
  }

  lemma UploadReadKeeps(cfg: Config, read: nat, sent: seq<ClientFrame>, n: nat)
    requires UploaderInv(cfg, read, Reading, sent)
    requires 1 <= n <= DATA_CHUNK_SIZE && read + n <= |cfg.local|
    ensures UploaderInv(cfg, read + n, Holding(CData(cfg.local[read..read + n])), sent)
  {
    var chunk := cfg.local[read..read + n];
    assert cfg.local[..read] + chunk == cfg.local[..read + n];
    assert cfg.first + cfg.local[..read] + chunk == cfg.first + (cfg.local[..read] + chunk);
  }

  lemma UpHonestSnoc(cfg: Config, sent: seq<ClientFrame>, f: ClientFrame)
    requires UpHonest(cfg, sent)
    requires f.CHalfClose? ==> UpBytes(sent) == cfg.first + cfg.local
    ensures UpHonest(cfg, sent + [f])
  {
    forall j | 0 <= j < |sent + [f]| && (sent + [f])[j].CHalfClose?
      ensures UpBytes((sent + [f])[..j]) == cfg.first + cfg.local
    {
      assert (sent + [f])[..j] == if j < |sent| then sent[..j] else sent;
    }
  }

  lemma UploadSendKeeps(cfg: Config, read: nat, sent: seq<ClientFrame>, f: ClientFrame)
    requires UploaderInv(cfg, read, Holding(f), sent)
    ensures UploaderInv(cfg, read, if f.CData? then Reading else Finished, sent + [f])
  {
    PayloadSnoc(ClientBytes, sent, f);
    assert f.CHalfClose? ==> cfg.local[..read] == cfg.local;
    UpHonestSnoc(cfg, sent, f);
    assert (sent + [f])[..|sent|] == sent;
  }

  lemma ClientHandlesKeeps(c: Client, got: seq<ServerFrame>, f: ServerFrame)
    requires LoopInv(c, got) && (c.main.AwaitResult? || c.main.CWaiting?)
    ensures LoopInv(ClientHandles(c, f), got + [f])
    ensures LoopInv(Leave(c, Failed), got + [f])
  {
    PayloadSnoc(ServerBytes, got, f);
    assert (got + [f])[..|got|] == got;
    if c.main.AwaitResult? {
      assert got + [f] == [f];
    }
  }

  lemma ClientStepKeeps(s: State, a: Action)
    requires ClientInv(s) && ClientEnabled(s, a)
    ensures ClientInv(ClientApply(s, a))
  {
    hide ClientInv, ClientApply, ClientEnabled;
    if UploaderTask(a) {
      UploaderTaskKeeps(s, a);
    } else {
      ReceiveLoopKeeps(s, a);
    }
  }

  predicate UploaderTask(a: Action) {
    a.UploadRead? || a.UploadEof? || a.UploadReadFails? || a.UploadSend? || a.UploadSendFails? || a.UploadCancel?
  }

  /** The receive loop's invariant sees of the uploader only whether it has been spawned. */
  lemma LoopIgnoresUploader(c: Client, c': Client, got: seq<ServerFrame>)
    requires LoopInv(c, got) && !c.uploader.Idle? && !c'.uploader.Idle?
    requires c' == c.(uploader := c'.uploader, read := c'.read)
    ensures LoopInv(c', got)
  {
    hide Relayed, Payload;
  }

  lemma UploaderTaskKeeps(s: State, a: Action)
    requires ClientInv(s) && ClientEnabled(s, a) && UploaderTask(a)
    ensures ClientInv(ClientApply(s, a))
  {
    hide UploaderInv, LoopInv, Fifo, Got;
    LoopIgnoresUploader(s.c, ClientApply(s, a).c, Got(s.down));
    var c, sent := s.c, s.up.log;
    match a
    case UploadRead(n) => UploadReadKeeps(s.cfg, c.read, sent, n);
    case UploadEof => UploaderStepKeeps(s.cfg, c.read, c.uploader, sent, Holding(CHalfClose));
    case UploadReadFails => UploaderStepKeeps(s.cfg, c.read, c.uploader, sent, Holding(CReset));
    case UploadSendFails | UploadCancel =>
      UploaderStepKeeps(s.cfg, c.read, c.uploader, sent, Stopped(Carried(ClientBytes, c.uploader)));
    case UploadSend =>
      SendKeeps(s.up, c.uploader.frame);
      UploadSendKeeps(s.cfg, c.read, sent, c.uploader.frame);
  }

  lemma ReceiveLoopKeeps(s: State, a: Action)
    requires ClientInv(s) && ClientEnabled(s, a) && !UploaderTask(a)
    ensures ClientInv(ClientApply(s, a))
  {
    hide UploaderInv, LoopInv, Fifo, Got;
    var c, sent := s.c, s.up.log;
    if a.ClientReceive? || a.ClientShutdownFails? {
      ReceiveKeeps(s.down);
      ClientHandlesKeeps(c, Got(s.down), s.down.net[0]);
      if c.main.AwaitResult? {
        AwaitingIsIdle(c, Got(s.down));
      }
      if c.uploader.Idle? {
        UploaderSpawns(s.cfg, c.read, sent);
      }
    } else {
      LoopLocalStep(s, a, Got(s.down));
    }
  }

  lemma AwaitingIsIdle(c: Client, got: seq<ServerFrame>)
    requires LoopInv(c, got) && c.main.AwaitResult?
    ensures c.uploader.Idle?
  {
  }

  /** A step of the receive loop that takes no frame. */
  lemma LoopLocalStep(s: State, a: Action, got: seq<ServerFrame>)
    requires LoopInv(s.c, got) && ClientEnabled(s, a) && !UploaderTask(a)
    requires !a.ClientReceive? && !a.ClientShutdownFails?
    ensures var s' := ClientApply(s, a);
            && LoopInv(s'.c, got) && s'.c.read == s.c.read && s'.c.uploader == s.c.uploader
            && s'.up == s.up && s'.down == s.down
  {
    hide Relayed, DownBytes;
    if a.ClientWrite? {
      assert s.c.main.pending == s.c.main.pending[..a.n] + s.c.main.pending[a.n..];
    }
  }

  // ----- transport steps

  /** The transport changes neither what was sent nor what was received. */
  lemma TransportMoves(s: State, a: Action)
    requires Fifo(s.up) && Fifo(s.down) && TransportEnabled(s, a)
    ensures var s' := TransportApply(s, a);
            && Fifo(s'.up) && Got(s'.up) == Got(s.up) && s'.up.log == s.up.log
            && Fifo(s'.down) && Got(s'.down) == Got(s.down) && s'.down.log == s.down.log
            && s' == s.(up := s'.up, down := s'.down)
            && (s'.down.end.Flowing? ==> s.down.end.Flowing?)
  {
    hide Fifo, Got;
    match a
    case UpMove => MoveKeeps(s.up);
    case UpClose => CloseKeeps(s.up);
    case UpCut(k, e) => CutKeeps(s.up, k, e);
    case DownMove => MoveKeeps(s.down);
    case DownClose => CloseKeeps(s.down);
    case DownCut(k, e) => CutKeeps(s.down, k, e);
  }

  lemma TransportKeepsClient(s: State, a: Action)
    requires ClientInv(s) && TransportEnabled(s, a)
    ensures ClientInv(TransportApply(s, a))
  {
    hide UploaderInv, LoopInv, Fifo, Got, TransportEnabled, TransportApply;
    TransportMoves(s, a);
  }

  lemma TransportKeepsServer(s: State, a: Action)
    requires ServerInv(s) && TransportEnabled(s, a)
    ensures ServerInv(TransportApply(s, a))
  {
    hide ReaderInv, MainInv, Fifo, Got, TransportEnabled, TransportApply;
    TransportMoves(s, a);
    ReaderOutlivesStream(s.cfg, s.sv, s.down.log, s.down.end.Flowing?);
  }

  /** What the target reader relies on does not depend on the stream being alive. */
  lemma ReaderOutlivesStream(cfg: Config, sv: Server, sent: seq<ServerFrame>, flowing: bool)
    requires ReaderInv(cfg, sv, sent, flowing)
    ensures ReaderInv(cfg, sv, sent, false)
  {
    hide ServerGrammar, DownHonest, StillReading, DownBytes;
  }

  // ----- server steps

  lemma InterleavesSnoc<F>(w: seq<F>, xs: seq<F>, ys: seq<F>, f: F)
    requires Interleaves(w, xs, ys)
    ensures Interleaves(w + [f], xs + [f], ys) && Interleaves(w + [f], xs, ys + [f])
  {
    assert (w + [f])[..|w|] == w;
    assert (xs + [f])[..|xs|] == xs;
    assert (ys + [f])[..|ys|] == ys;
  }

  lemma StillReadingSnoc(xs: seq<ServerFrame>, f: ServerFrame)
    requires StillReading(xs)
    ensures f.SData? && GoodChunk(f.data) ==> StillReading(xs + [f])
    ensures StillReading((xs + [f])[..|xs + [f]| - 1])
  {
    assert (xs + [f])[..|xs|] == xs;
  }

  lemma ReaderFramesSnoc(xs: seq<ServerFrame>, f: ServerFrame)
    requires StillReading(xs) && (DownTerminal(f) || (f.SData? && GoodChunk(f.data)))
    ensures ReaderGrammar(xs + [f])
  {
    hide StillReading, GoodChunk;
    StillReadingSnoc(xs, f);
    assert (xs + [f])[..|xs|] == xs;
  }

  lemma MainFramesSnoc(ys: seq<ServerFrame>, f: ServerFrame)
    requires OnlyPongs(ys) && (f.SPong? || f.SReset?)
    ensures MainGrammar(ys + [f])
  {
    assert (ys + [f])[..|ys|] == ys;
  }

  lemma ReaderGrammarSnoc(sent: seq<ServerFrame>, xs: seq<ServerFrame>, ys: seq<ServerFrame>, f: ServerFrame)
    requires ServerGrammar(sent, xs, ys) && sent != [] && sent[0] == SOpenResult(true)
    requires StillReading(xs) && (DownTerminal(f) || (f.SData? && GoodChunk(f.data)))
    ensures ServerGrammar(sent + [f], xs + [f], ys)
  {
    hide Interleaves, StillReading, ReaderGrammar, MainGrammar, GoodChunk;
    InterleavesSnoc(sent[1..], xs, ys, f);
    assert (sent + [f])[1..] == sent[1..] + [f];
    ReaderFramesSnoc(xs, f);
  }

  lemma MainGrammarSnoc(sent: seq<ServerFrame>, xs: seq<ServerFrame>, ys: seq<ServerFrame>, f: ServerFrame)
    requires ServerGrammar(sent, xs, ys) && sent != [] && sent[0] == SOpenResult(true)
    requires OnlyPongs(ys) && (f.SPong? || f.SReset?)
    ensures ServerGrammar(sent + [f], xs, ys + [f])
  {
    hide Interleaves, OnlyPongs, ReaderGrammar, MainGrammar;
    InterleavesSnoc(sent[1..], xs, ys, f);
    assert (sent + [f])[1..] == sent[1..] + [f];
    MainFramesSnoc(ys, f);
  }

  lemma FirstGrammar(xs: seq<ServerFrame>, ys: seq<ServerFrame>, f: ServerFrame)
    requires xs == [] && ys == [] && (f.SReset? || f.SOpenResult?)
    ensures ServerGrammar([] + [f], xs, ys)
  {
    assert [] + [f] == [f];
    assert [f][1..] == [];
  }

  lemma DownHonestSnoc(cfg: Config, sent: seq<ServerFrame>, f: ServerFrame)
    requires DownHonest(cfg, sent)
    requires f.SHalfClose? ==> DownBytes(sent) == cfg.target
    ensures DownHonest(cfg, sent + [f])
  {
    forall j | 0 <= j < |sent + [f]| && (sent + [f])[j].SHalfClose?
      ensures DownBytes((sent + [f])[..j]) == cfg.target
    {
      assert (sent + [f])[..j] == if j < |sent| then sent[..j] else sent;
    }
  }

  lemma TargetStepKeeps(cfg: Config, sv: Server, sent: seq<ServerFrame>, flowing: bool, r': Task<ServerFrame>)
    requires ReaderInv(cfg, sv, sent, flowing) && Active(sv.reader)
    requires
      || (sv.reader.Reading? && r' == Holding(SReset))
      || (sv.reader.Reading? && sv.read == |cfg.target| && r' == Holding(SHalfClose))
      || ((sv.abort || !flowing) && r' == Stopped(Carried(ServerBytes, sv.reader)))
    ensures ReaderInv(cfg, sv.(reader := r'), sent, flowing)
  {
  }

  lemma TargetReadKeeps(cfg: Config, sv: Server, sent: seq<ServerFrame>, flowing: bool, n: nat)
    requires ReaderInv(cfg, sv, sent, flowing) && sv.reader.Reading?
    requires 1 <= n <= DATA_CHUNK_SIZE && sv.read + n <= |cfg.target|
    ensures ReaderInv(cfg, sv.(reader := Holding(SData(cfg.target[sv.read..sv.read + n])), read := sv.read + n), sent, flowing)
  {
    var chunk := cfg.target[sv.read..sv.read + n];
    assert cfg.target[..sv.read] + chunk == cfg.target[..sv.read + n];
  }

  lemma TargetSendKeeps(cfg: Config, sv: Server, sent: seq<ServerFrame>, f: ServerFrame)
    requires ReaderInv(cfg, sv, sent, true) && sv.reader == Holding(f)
    ensures ReaderInv(cfg, sv.(reader := if f.SData? then Reading else Finished, fromReader := sv.fromReader + [f]), sent + [f], true)
  {
    hide ServerGrammar, DownHonest;
    PayloadSnoc(ServerBytes, sent, f);
    assert f.SHalfClose? ==> cfg.target[..sv.read] == cfg.target;
    DownHonestSnoc(cfg, sent, f);
    ReaderGrammarSnoc(sent, sv.fromReader, sv.fromMain, f);
  }

  /** The main loop queues an early Reset or an OpenResult. */
  lemma FirstSendKeeps(cfg: Config, sv: Server, got: seq<ClientFrame>)
    requires ReaderInv(cfg, sv, [], true) && MainInv(sv, [], got)
    requires sv.main.Sending? && (sv.main.next.StartRelay? || sv.main.next.Return?)
    ensures ReaderInv(cfg, AfterSending(sv, sv.main.next), [] + [sv.main.frame], true)
  {
    hide ServerGrammar, DownHonest;
    var f := sv.main.frame;
    FirstGrammar(sv.fromReader, sv.fromMain, f);
    PayloadSnoc(ServerBytes, [], f);
    DownHonestSnoc(cfg, [], f);
  }

  /** The main loop queues a Pong or a Reset. */
  lemma LaterSendKeeps(cfg: Config, sv: Server, sent: seq<ServerFrame>, got: seq<ClientFrame>)
    requires ReaderInv(cfg, sv, sent, true) && MainInv(sv, sent, got)
    requires sv.main.Sending? && (sv.main.next.NextFrame? || sv.main.next.BreakLoop?)
    ensures ReaderInv(cfg, AfterSending(sv, sv.main.next).(fromMain := sv.fromMain + [sv.main.frame]), sent + [sv.main.frame], true)
  {
    hide ServerGrammar, DownHonest;
    var f := sv.main.frame;
    PayloadSnoc(ServerBytes, sent, f);
    DownHonestSnoc(cfg, sent, f);
    MainGrammarSnoc(sent, sv.fromReader, sv.fromMain, f);
  }

  lemma MainSendKeeps(sv: Server, sent: seq<ServerFrame>, got: seq<ClientFrame>, xs: seq<ServerFrame>)
    requires MainInv(sv, sent, got) && sv.main.Sending?
    requires sv.main.next.StartRelay? || sv.main.next.NextFrame? ==> OnlyPongs(xs)
    ensures MainInv(AfterSending(sv, sv.main.next).(fromMain := xs), sent + [sv.main.frame], got)
    ensures MainInv(AfterSending(sv, sv.main.next).(fromMain := xs), sent, got)
  {
    hide Accepted, HasHalfClose, OnlyPongs, UpBytes;
    if sv.main.next.StartRelay? {
      OpenOnly(got);
    }
  }

  /** All the server has received is the Open frame. */
  lemma OpenOnly(got: seq<ClientFrame>)
    requires |got| == 1 && got[0].COpen?
    ensures Accepted(got) && UpBytes(got) == got[0].firstPayload && !HasHalfClose(got)
  {
    PayloadSnoc(ClientBytes, [], got[0]);
    assert got == [] + [got[0]];
  }

  lemma ServerHandlesKeeps(sv: Server, sent: seq<ServerFrame>, got: seq<ClientFrame>, f: ClientFrame)
    requires MainInv(sv, sent, got) && (sv.main.AwaitOpen? || sv.main.SWaiting?)
    ensures MainInv(ServerHandles(sv, f), sent, got + [f])
  {
    PayloadSnoc(ClientBytes, got, f);
    if sv.main.AwaitOpen? {
      assert got + [f] == [f];
    } else if f.CHalfClose? {
      assert (got + [f])[|got|].CHalfClose?;
    } else if HasHalfClose(got) {
      var i :| 0 <= i < |got| && got[i].CHalfClose?;
      assert (got + [f])[i].CHalfClose?;
    }
  }

  /** The main loop's invariant sees of the target reader only whether it has been spawned. */
  lemma MainIgnoresReader(sv: Server, sv': Server, sent: seq<ServerFrame>, sent': seq<ServerFrame>, got: seq<ClientFrame>)
    requires MainInv(sv, sent, got) && !sv.reader.Idle? && !sv'.reader.Idle?
    requires sv' == sv.(reader := sv'.reader, read := sv'.read, fromReader := sv'.fromReader)
    requires sent <= sent' && (sent == [] ==> sent' == [])
    ensures MainInv(sv', sent', got)
  {
    hide Accepted, HasHalfClose;
  }

  /** The target reader's invariant sees of the main loop only whether it has aborted the reader. */
  lemma ReaderIgnoresMain(cfg: Config, sv: Server, sv': Server, sent: seq<ServerFrame>, flowing: bool)
    requires ReaderInv(cfg, sv, sent, flowing)
    requires sv' == sv.(main := sv'.main, written := sv'.written, shut := sv'.shut, abort := sv'.abort)
    requires sv'.abort ==> sv'.main.SDone?
    requires sv.abort ==> sv'.abort
    ensures ReaderInv(cfg, sv', sent, flowing)
  {
    hide ServerGrammar, DownHonest;
  }

  lemma ReaderSpawns(cfg: Config, sv: Server, sent: seq<ServerFrame>, flowing: bool)
    requires ReaderInv(cfg, sv, sent, flowing) && sv.reader.Idle? && Opened(sent, flowing) && !sv.abort
    ensures ReaderInv(cfg, sv.(main := SWaiting, reader := Reading), sent, flowing)
  {
    hide ServerGrammar, DownHonest;
  }

  predicate TargetTask(a: Action) {
    a.TargetRead? || a.TargetEof? || a.TargetReadFails? || a.TargetSend? || a.TargetSendFails? || a.TargetCancel?
  }

  lemma TargetTaskReader(s: State, a: Action)
    requires ReaderInv(s.cfg, s.sv, s.down.log, s.down.end.Flowing?) && Fifo(s.down)
    requires ServerEnabled(s, a) && TargetTask(a)
    ensures var s' := ServerApply(s, a);
            Fifo(s'.down) && ReaderInv(s.cfg, s'.sv, s'.down.log, s'.down.end.Flowing?) && Got(s'.down) == Got(s.down)
  {
    hide ServerGrammar, DownHonest, StillReading, ReaderInv;
    var sv, sent, flowing := s.sv, s.down.log, s.down.end.Flowing?;
    match a
    case TargetRead(n) => TargetReadKeeps(s.cfg, sv, sent, flowing, n);
    case TargetEof => TargetStepKeeps(s.cfg, sv, sent, flowing, Holding(SHalfClose));
    case TargetReadFails => TargetStepKeeps(s.cfg, sv, sent, flowing, Holding(SReset));
    case TargetSend =>
      SendKeeps(s.down, sv.reader.frame);
      TargetSendKeeps(s.cfg, sv, sent, sv.reader.frame);
    case _ => TargetStepKeeps(s.cfg, sv, sent, flowing, Stopped(Carried(ServerBytes, sv.reader)));
  }

  lemma SentOpens(cfg: Config, sv: Server, sent: seq<ServerFrame>)
    requires ReaderInv(cfg, sv, sent, true) && !sv.reader.Idle?
    ensures sent != []
  {
    hide ServerGrammar, DownHonest, StillReading;
  }

  lemma TargetTaskKeeps(s: State, a: Action)
    requires ServerInv(s) && ServerEnabled(s, a) && TargetTask(a)
    ensures ServerInv(ServerApply(s, a))
  {
    hide MainInv, ReaderInv;
    TargetTaskReader(s, a);
    var s' := ServerApply(s, a);
    if s.down.end.Flowing? {
      SentOpens(s.cfg, s.sv, s.down.log);
    }
    MainIgnoresReader(s.sv, s'.sv, s.down.log, s'.down.log, Got(s.up));
  }

  lemma MainReceiveKeeps(s: State, a: Action)
    requires ServerInv(s) && ServerEnabled(s, a) && a.ServerReceive?
    ensures ServerInv(ServerApply(s, a))
  {
    hide MainInv, ReaderInv;
    ReceiveKeeps(s.up);
    ServerHandlesKeeps(s.sv, s.down.log, Got(s.up), s.up.net[0]);
    var s' := ServerApply(s, a);
    MainNotAborted(s.sv, s.down.log, Got(s.up));
    ReaderIgnoresMain(s.cfg, s.sv, s'.sv, s.down.log, s.down.end.Flowing?);
  }

  lemma MainNotAborted(sv: Server, sent: seq<ServerFrame>, got: seq<ClientFrame>)
    requires MainInv(sv, sent, got) && !sv.main.SDone?
    ensures !sv.abort
  {
  }

  lemma MainLocalStep(sv: Server, sent: seq<ServerFrame>, got: seq<ClientFrame>, s: State, a: Action)
    requires MainInv(sv, sent, got) && s.sv == sv && ServerEnabled(s, a)
    requires a.ServerSeesEnd? || a.ServerTimeout? || a.DialOk? || a.DialFails? || a.ServerWrite? || a.ServerWriteDone? || a.ServerWriteFails?
    ensures MainInv(ServerApply(s, a).sv, sent, got)
  {
    hide Accepted, HasHalfClose, OnlyPongs, UpBytes;
    if |got| == 1 && got[0].COpen? {
      OpenOnly(got);
    }
    if a.ServerWrite? {
      var p := sv.main.pending;
      assert sv.written + p[..a.n] + p[a.n..] == sv.written + p;
    }
  }

  lemma MainLocalKeeps(s: State, a: Action)
    requires ServerInv(s) && ServerEnabled(s, a)
    requires a.ServerSeesEnd? || a.ServerTimeout? || a.DialOk? || a.DialFails? || a.ServerWrite? || a.ServerWriteDone? || a.ServerWriteFails?
    ensures ServerInv(ServerApply(s, a))
  {
    hide MainInv, ReaderInv;
    MainLocalStep(s.sv, s.down.log, Got(s.up), s, a);
    MainNotAborted(s.sv, s.down.log, Got(s.up));
    ReaderIgnoresMain(s.cfg, s.sv, ServerApply(s, a).sv, s.down.log, s.down.end.Flowing?);
  }

  lemma SendingPhase(sv: Server, sent: seq<ServerFrame>, got: seq<ClientFrame>)
    requires MainInv(sv, sent, got) && sv.main.Sending?
    ensures sv.main.next.StartRelay? || sv.main.next.Return? ==> sent == [] && sv.reader.Idle? && !sv.abort
    ensures sv.main.next.NextFrame? || sv.main.next.BreakLoop? ==> !sv.reader.Idle? && !sv.abort
    ensures sv.main.next.NextFrame? ==> OnlyPongs(sv.fromMain + [sv.main.frame])
    ensures sv.main.next.NextFrame? || sv.main.next.BreakLoop? ==> OnlyPongs(sv.fromMain)
  {
    hide Accepted, HasHalfClose;
  }

  lemma MainSendStepKeeps(s: State, a: Action)
    requires ServerInv(s) && ServerEnabled(s, a) && (a.ServerSend? || a.ServerSendFails?)
    ensures ServerInv(ServerApply(s, a))
  {
    var sv, sent, flowing, got := s.sv, s.down.log, s.down.end.Flowing?, Got(s.up);
    assert sv.reader.Idle? ==> sv.fromMain == [];
    hide MainInv, ReaderInv;
    SendingPhase(sv, sent, got);
    var sv' := ServerApply(s, a).sv;
    MainSendKeeps(sv, sent, got, sv'.fromMain);
    if a.ServerSend? {
      SendKeeps(s.down, sv.main.frame);
      if sent == [] && (sv.main.next.StartRelay? || sv.main.next.Return?) {
        FirstSendKeeps(s.cfg, sv, got);
      } else {
        LaterSendKeeps(s.cfg, sv, sent, got);
      }
    } else if sv.main.next.StartRelay? {
      ReaderSpawns(s.cfg, sv, sent, flowing);
    } else {
      ReaderIgnoresMain(s.cfg, sv, sv', sent, flowing);
    }
  }

  lemma ServerStepKeeps(s: State, a: Action)
    requires ServerInv(s) && ServerEnabled(s, a)
    ensures ServerInv(ServerApply(s, a))
  {
    match a
    case ServerReceive => MainReceiveKeeps(s, a);
    case ServerSend | ServerSendFails => MainSendStepKeeps(s, a);
    case ServerSeesEnd | ServerTimeout | DialOk | DialFails | ServerWrite(_) | ServerWriteDone | ServerWriteFails =>
      MainLocalKeeps(s, a);
    case _ => TargetTaskKeeps(s, a);
  }

  // ----- each side leaves the other alone

  lemma ClientLeavesServer(s: State, a: Action)
    requires ServerInv(s) && ClientEnabled(s, a)
    ensures ServerInv(ClientApply(s, a))
  {
    hide ReaderInv, MainInv, Fifo, Got;
    if a.ClientReceive? || a.ClientShutdownFails? {
      ReceiveKeeps(s.down);
    } else if a.UploadSend? {
      SendKeeps(s.up, s.c.uploader.frame);
    }
  }

  lemma ServerLeavesClient(s: State, a: Action)
    requires ClientInv(s) && ServerEnabled(s, a)
    ensures ClientInv(ServerApply(s, a))
  {
    hide UploaderInv, LoopInv, Fifo, Got;
    match a
    case ServerReceive => ReceiveKeeps(s.up);
    case ServerSend => SendKeeps(s.down, s.sv.main.frame);
    case TargetSend => SendKeeps(s.down, s.sv.reader.frame);
    case _ =>
  }

  // ----- runs

  lemma ClientKeeps(s: State, a: Action)
    requires Inv(s) && ClientEnabled(s, a)
    ensures Inv(ClientApply(s, a))
  {
    hide ClientInv, ServerInv, ClientApply, ClientEnabled;
    ClientStepKeeps(s, a);
    ClientLeavesServer(s, a);
  }

  lemma TransportKeeps(s: State, a: Action)
    requires Inv(s) && TransportEnabled(s, a)
    ensures Inv(TransportApply(s, a))
  {
    hide ClientInv, ServerInv, TransportApply, TransportEnabled;
    TransportKeepsClient(s, a);
    TransportKeepsServer(s, a);
  }

  lemma ServerKeeps(s: State, a: Action)
    requires Inv(s) && ServerEnabled(s, a)
    ensures Inv(ServerApply(s, a))
  {
    hide ClientInv, ServerInv, ServerApply, ServerEnabled;
    ServerStepKeeps(s, a);
    ServerLeavesClient(s, a);
  }

  lemma {:induction false} StepKeeps(s: State, a: Action)
    requires Inv(s) && Enabled(s, a)
    ensures Inv(Apply(s, a))
  {
    hide Inv, ClientApply, TransportApply, ServerApply, ClientEnabled, TransportEnabled, ServerEnabled;
    if ClientEnabled(s, a) {
      ClientKeeps(s, a);
    } else if TransportEnabled(s, a) {
      TransportKeeps(s, a);
    } else {
      ServerKeeps(s, a);
    }
  }

  lemma {:induction false} RunKeeps(s: State, run: seq<Action>)
    requires Inv(s) && Legal(s, run)
    ensures Inv(Run(s, run)) && Run(s, run).cfg == s.cfg
    decreases run
  {
    hide Inv, Enabled;
    if run != [] {
      StepKeeps(s, run[0]);
      RunKeeps(Apply(s, run[0]), run[1..]);
    }
  }

  /** Every state a tunnel can reach satisfies the invariant. */
  lemma Reachable(cfg: Config, run: seq<Action>)
    requires Legal(Init(cfg), run)
    ensures Inv(Run(Init(cfg), run)) && Run(Init(cfg), run).cfg == cfg
  {
    InitInv(cfg);
    RunKeeps(Init(cfg), run);
  }
}
