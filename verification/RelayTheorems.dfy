/** What holds in every reachable state of the tunnel, whatever fails and whenever. */
module RelayTheorems {
  import opened Bytes
  import opened Channel
  import opened Frames
  import opened Relay
  import opened RelayInvariant

  /** Bytes the server's main loop holds and has not yet written to the target. */
  function ServerHand(m: ServerMain): seq<byte> {
    match m
    case Dialing(first) => first
    case WritingFirst(p) => p
    case SWriting(p) => p
    case _ => []
  }

  /** The server has not given up: whatever arrives will still be written. */
  predicate StillWriting(m: ServerMain) {
    match m
    case Sending(_, next) => next.StartRelay? || next.NextFrame?
    case SDone => false
    case _ => true
  }

  function ClientHand(m: ClientMain): seq<byte> {
    if m.CWriting? then m.pending else []
  }

  // ----- conservation

  lemma ServerAccounts(sv: Server, sent: seq<ServerFrame>, got: seq<ClientFrame>)
    requires MainInv(sv, sent, got)
    ensures sv.written <= UpBytes(got)
    ensures StillWriting(sv.main) ==> sv.written + ServerHand(sv.main) == UpBytes(got)
  {
    hide Accepted, HasHalfClose, OnlyPongs, UpBytes;
    OpeningBytes(got);
  }

  lemma OpeningBytes(got: seq<ClientFrame>)
    ensures got == [] ==> UpBytes(got) == []
    ensures |got| == 1 && got[0].COpen? ==> UpBytes(got) == got[0].firstPayload
  {
    if |got| == 1 {
      PayloadSnoc(ClientBytes, [], got[0]);
      assert got == [] + [got[0]];
    }
  }

  lemma ClientAccounts(c: Client, got: seq<ServerFrame>)
    requires LoopInv(c, got)
    ensures c.written <= DownBytes(got)
    ensures !c.main.CDone? ==> c.written + ClientHand(c.main) == DownBytes(got)
  {
    hide Relayed;
  }

  lemma ChannelAccounts<F>(carried: F -> seq<byte>, ch: Channel<F>)
    requires Fifo(ch)
    ensures Payload(carried, Got(ch)) + Payload(carried, ch.net) <= Payload(carried, ch.log)
    ensures Payload(carried, Got(ch)) <= Payload(carried, ch.log)
    ensures ch.end.Flowing? ==>
              Payload(carried, ch.log) == Payload(carried, Got(ch)) + Payload(carried, ch.net) + Payload(carried, ch.queue)
  {
    hide Payload, Fifo;
    var later := FifoSplits(ch);
    PayloadConcat(carried, Got(ch), ch.net);
    PayloadConcat(carried, Got(ch) + ch.net, later);
  }

  /** The log is what was received, what is in flight, and what was queued later. */
  lemma FifoSplits<F>(ch: Channel<F>) returns (later: seq<F>)
    requires Fifo(ch)
    ensures ch.log == (Got(ch) + ch.net) + later
    ensures ch.end.Flowing? ==> later == ch.queue
  {
    later := ch.log[ch.handled + |ch.net|..];
  }

  /** The target receives a prefix of what the local side sent, in order, with nothing added. */
  lemma UpstreamPrefix(cfg: Config, run: seq<Action>)
    requires Legal(Init(cfg), run)
    ensures var s := Run(Init(cfg), run);
            s.c.read <= |cfg.local| && s.sv.written <= cfg.first + cfg.local[..s.c.read]
  {
    Reachable(cfg, run);
    var s := Run(Init(cfg), run);
    hide Run, Legal, ClientGrammar, UpHonest, MainInv;
    ServerAccounts(s.sv, s.down.log, Got(s.up));
    ChannelAccounts(ClientBytes, s.up);
  }

  /** Until the stream is cut or the server gives up, every byte read locally is in exactly one
      place: written, in the server's hand, in flight, queued, or in the uploader's hand (or was
      in it when the uploader was stopped). */
  lemma UpstreamConserved(cfg: Config, run: seq<Action>)
    requires Legal(Init(cfg), run)
    requires var s := Run(Init(cfg), run); s.up.end.Flowing? && StillWriting(s.sv.main)
    ensures var s := Run(Init(cfg), run);
            s.c.read <= |cfg.local| &&
            s.sv.written + ServerHand(s.sv.main) + UpBytes(s.up.net) + UpBytes(s.up.queue) + Carried(ClientBytes, s.c.uploader)
              == cfg.first + cfg.local[..s.c.read]
  {
    Reachable(cfg, run);
    var s := Run(Init(cfg), run);
    hide Run, Legal, ClientGrammar, UpHonest, MainInv;
    ServerAccounts(s.sv, s.down.log, Got(s.up));
    ChannelAccounts(ClientBytes, s.up);
  }

  /** The local side receives a prefix of what the target sent, in order, with nothing added. */
  lemma DownstreamPrefix(cfg: Config, run: seq<Action>)
    requires Legal(Init(cfg), run)
    ensures var s := Run(Init(cfg), run);
            s.sv.read <= |cfg.target| && s.c.written <= cfg.target[..s.sv.read]
  {
    Reachable(cfg, run);
    var s := Run(Init(cfg), run);
    hide Run, Legal, ServerGrammar, DownHonest, LoopInv, StillReading;
    ClientAccounts(s.c, Got(s.down));
    ChannelAccounts(ServerBytes, s.down);
  }

  lemma DownstreamConserved(cfg: Config, run: seq<Action>)
    requires Legal(Init(cfg), run)
    requires var s := Run(Init(cfg), run); s.down.end.Flowing? && !s.c.main.CDone?
    ensures var s := Run(Init(cfg), run);
            s.sv.read <= |cfg.target| &&
            s.c.written + ClientHand(s.c.main) + DownBytes(s.down.net) + DownBytes(s.down.queue) + Carried(ServerBytes, s.sv.reader)
              == cfg.target[..s.sv.read]
  {
    Reachable(cfg, run);
    var s := Run(Init(cfg), run);
    hide Run, Legal, ServerGrammar, DownHonest, LoopInv, StillReading;
    ClientAccounts(s.c, Got(s.down));
    ChannelAccounts(ServerBytes, s.down);
  }

  // ----- honest end of stream

  /** The next frame in flight is the one the log records after those already received. */
  lemma NextFrameInLog<F>(ch: Channel<F>)
    requires Fifo(ch) && CanReceive(ch)
    ensures ch.handled < |ch.log| && ch.net[0] == ch.log[ch.handled]
  {
  }

  /** When the server handles a HalfClose, the target has received the first payload and
      every byte the local side will ever send. */
  lemma UploadEndIsHonest(cfg: Config, run: seq<Action>)
    requires Legal(Init(cfg), run)
    requires var s := Run(Init(cfg), run); s.sv.main.SWaiting? && CanReceive(s.up) && s.up.net[0].CHalfClose?
    ensures Run(Init(cfg), run).sv.written == cfg.first + cfg.local
  {
    Reachable(cfg, run);
    var s := Run(Init(cfg), run);
    hide Run, Legal, ClientGrammar, MainInv;
    NextFrameInLog(s.up);
    ServerAccounts(s.sv, s.down.log, Got(s.up));
  }

  /** The client shuts the local side down only after writing everything the target sent. */
  lemma DownloadEndIsHonest(cfg: Config, run: seq<Action>)
    requires Legal(Init(cfg), run)
    ensures var s := Run(Init(cfg), run);
            && (s.c.main.CWaiting? && CanReceive(s.down) && s.down.net[0].SHalfClose? ==> s.c.written == cfg.target)
            && (s.c.shut ==> s.c.written == cfg.target)
  {
    hide Run, Legal, Inv;
    Reachable(cfg, run);
    EndOfDownload(Run(Init(cfg), run));
  }

  lemma EndOfDownload(s: State)
    requires Inv(s)
    ensures s.c.main.CWaiting? && CanReceive(s.down) && s.down.net[0].SHalfClose? ==> s.c.written == s.cfg.target
    ensures s.c.shut ==> s.c.written == s.cfg.target
  {
    hide ServerGrammar, StillReading, Relayed, UploaderInv, MainInv, DownBytes;
    var got := Got(s.down);
    if s.c.main.CWaiting? && CanReceive(s.down) && s.down.net[0].SHalfClose? {
      NextFrameInLog(s.down);
    }
    if s.c.shut {
      var k := |got| - 1;
      assert s.down.log[k].SHalfClose?;
      assert s.down.log[..k] == got[..k];
      NoBytesInHalfClose(got[..k], got[k]);
      assert got == got[..k] + [got[k]];
    }
  }

  lemma NoBytesInHalfClose(frames: seq<ServerFrame>, f: ServerFrame)
    requires f.SHalfClose?
    ensures DownBytes(frames + [f]) == DownBytes(frames)
  {
    PayloadSnoc(ServerBytes, frames, f);
  }

  // ----- conformance

  lemma InterleavedFrom<F>(w: seq<F>, xs: seq<F>, ys: seq<F>, i: nat)
    requires Interleaves(w, xs, ys) && i < |w|
    ensures w[i] in xs || w[i] in ys
    decreases |w|
  {
    var k := |w| - 1;
    if i < k {
      assert w[..k][i] == w[i];
      if xs != [] && xs[|xs| - 1] == w[k] && Interleaves(w[..k], xs[..|xs| - 1], ys) {
        InterleavedFrom(w[..k], xs[..|xs| - 1], ys, i);
      } else {
        InterleavedFrom(w[..k], xs, ys[..|ys| - 1], i);
      }
    }
  }

  lemma ReaderFrames(fs: seq<ServerFrame>, f: ServerFrame)
    requires ReaderGrammar(fs) && f in fs
    ensures f.SData? || DownTerminal(f)
    ensures f.SData? ==> GoodChunk(f.data)
  {
    var i :| 0 <= i < |fs| && fs[i] == f;
    if i < |fs| - 1 {
      assert fs[..|fs| - 1][i] == f;
    }
  }

  lemma MainFrames(fs: seq<ServerFrame>, f: ServerFrame)
    requires MainGrammar(fs) && f in fs
    ensures f.SPong? || f.SReset?
  {
    var i :| 0 <= i < |fs| && fs[i] == f;
    if i < |fs| - 1 {
      assert fs[..|fs| - 1][i] == f;
    }
  }

  /** After its first frame the server never sends an OpenResult or an empty frame. */
  lemma LaterServerFrame(sent: seq<ServerFrame>, xs: seq<ServerFrame>, ys: seq<ServerFrame>, i: nat)
    requires ServerGrammar(sent, xs, ys) && 1 <= i < |sent|
    ensures var f := sent[i]; f.SData? || f.SHalfClose? || f.SReset? || f.SPong?
    ensures sent[i].SData? ==> GoodChunk(sent[i].data)
  {
    hide Interleaves, ReaderGrammar, MainGrammar;
    InterleavedFrom(sent[1..], xs, ys, i - 1);
    assert sent[1..][i - 1] == sent[i];
    if sent[i] in xs {
      ReaderFrames(xs, sent[i]);
    } else {
      MainFrames(ys, sent[i]);
    }
  }

  /** What the server's part of the invariant says to whoever listens. */
  lemma ServerPromises(s: State)
    requires ServerInv(s)
    ensures Fifo(s.up) && s.sv.read <= |s.cfg.target|
    ensures ServerGrammar(s.down.log, s.sv.fromReader, s.sv.fromMain) && DownHonest(s.cfg, s.down.log)
    ensures s.sv.written <= UpBytes(Got(s.up))
    ensures s.down.log != [] && s.down.log[0] == SOpenResult(true) ==>
              Got(s.up) != [] && Got(s.up)[0].COpen? && Got(s.up)[0].firstPayload <= s.sv.written
    ensures DownBytes(s.down.log) + Carried(ServerBytes, s.sv.reader) == s.cfg.target[..s.sv.read]
  {
    hide ServerGrammar, DownHonest, UpBytes, DownBytes, Accepted, HasHalfClose, OnlyPongs, StillReading;
    ServerAccounts(s.sv, s.down.log, Got(s.up));
  }

  /** What the client's part of the invariant says to whoever listens. */
  lemma ClientPromises(s: State)
    requires ClientInv(s)
    ensures Fifo(s.down) && s.c.read <= |s.cfg.local|
    ensures ClientGrammar(s.cfg, s.up.log) && UpHonest(s.cfg, s.up.log)
    ensures |s.up.log| > 1 ==> Got(s.down) != [] && Got(s.down)[0] == SOpenResult(true)
    ensures UpBytes(s.up.log) + Carried(ClientBytes, s.c.uploader) == s.cfg.first + s.cfg.local[..s.c.read]
    ensures s.c.written <= DownBytes(Got(s.down))
    ensures s.c.shut ==> s.c.written == DownBytes(Got(s.down)) && Got(s.down) != [] && Got(s.down)[|Got(s.down)| - 1].SHalfClose?
  {
    hide ClientGrammar, UpHonest, UpBytes, DownBytes, Relayed, StillUploading;
    ClientAccounts(s.c, Got(s.down));
  }

  /** Both sides' complete output obeys the protocol's grammar; a good OpenResult is sent only
      after the whole first payload has been written. */
  lemma OutputConforms(cfg: Config, run: seq<Action>)
    requires Legal(Init(cfg), run)
    ensures var s := Run(Init(cfg), run);
            && ClientGrammar(cfg, s.up.log)
            && (|s.up.log| > 1 ==> s.down.log != [] && s.down.log[0] == SOpenResult(true))
            && ServerGrammar(s.down.log, s.sv.fromReader, s.sv.fromMain)
            && (s.down.log != [] && s.down.log[0] == SOpenResult(true) ==> cfg.first <= s.sv.written)
  {
    hide Run, Legal, ServerInv, ClientInv, ServerGrammar, ClientGrammar, DownHonest, UpHonest, DownBytes, UpBytes;
    Reachable(cfg, run);
    var s := Run(Init(cfg), run);
    ServerPromises(s);
    ClientPromises(s);
    FirstFrames(cfg, s.up, s.down);
  }

  /** The first frame received is the first frame sent. */
  lemma FirstFrames(cfg: Config, up: Channel<ClientFrame>, down: Channel<ServerFrame>)
    requires Fifo(up) && Fifo(down) && ClientGrammar(cfg, up.log)
    ensures Got(up) != [] ==> Got(up)[0] == COpen(cfg.first)
    ensures Got(down) != [] ==> down.log != [] && down.log[0] == Got(down)[0]
  {
  }

  /** Run against each other, neither side meets a frame its code treats as a protocol error,
      and the server never holds data for a target it has half-closed. */
  lemma NoProtocolError(cfg: Config, run: seq<Action>)
    requires Legal(Init(cfg), run)
    ensures var s := Run(Init(cfg), run);
            && (s.c.main.AwaitResult? && CanReceive(s.down) ==> s.down.net[0].SOpenResult? || s.down.net[0].SReset?)
            && (s.c.main.CWaiting? && CanReceive(s.down) ==> !s.down.net[0].SOpenResult? && !s.down.net[0].SEmpty?)
            && (s.sv.main.AwaitOpen? && CanReceive(s.up) ==> s.up.net[0].COpen?)
            && (s.sv.main.SWaiting? && CanReceive(s.up) ==> s.up.net[0].CData? || UpTerminal(s.up.net[0]))
            && (s.sv.main.SWriting? ==> !s.sv.shut)
  {
    Reachable(cfg, run);
    ClientMeetsNoError(Run(Init(cfg), run));
    ServerMeetsNoError(Run(Init(cfg), run));
  }

  lemma ClientMeetsNoError(s: State)
    requires Inv(s)
    ensures s.c.main.AwaitResult? && CanReceive(s.down) ==> s.down.net[0].SOpenResult? || s.down.net[0].SReset?
    ensures s.c.main.CWaiting? && CanReceive(s.down) ==> !s.down.net[0].SOpenResult? && !s.down.net[0].SEmpty?
  {
    hide UploaderInv, MainInv, Interleaves, ReaderGrammar, MainGrammar, DownHonest, StillReading;
    if CanReceive(s.down) {
      NextFrameInLog(s.down);
      if s.c.main.CWaiting? {
        LaterServerFrame(s.down.log, s.sv.fromReader, s.sv.fromMain, s.down.handled);
      }
    }
  }

  lemma NothingAfterHalfClose(cfg: Config, sent: seq<ClientFrame>, i: nat)
    requires ClientGrammar(cfg, sent) && i < |sent| && sent[i].CHalfClose?
    ensures i == |sent| - 1
  {
  }

  lemma ServerMeetsNoError(s: State)
    requires Inv(s)
    ensures s.sv.main.AwaitOpen? && CanReceive(s.up) ==> s.up.net[0].COpen?
    ensures s.sv.main.SWaiting? && CanReceive(s.up) ==> s.up.net[0].CData? || UpTerminal(s.up.net[0])
    ensures s.sv.main.SWriting? ==> !s.sv.shut
  {
    hide LoopInv, ReaderInv, UpHonest, Carried;
    if CanReceive(s.up) {
      NextFrameInLog(s.up);
    }
    if s.sv.main.SWriting? && s.sv.shut {
      var got := Got(s.up);
      var i :| 0 <= i < |got| && got[i].CHalfClose?;
      assert s.up.log[i].CHalfClose? && s.up.log[|got| - 1].CData?;
      NothingAfterHalfClose(s.cfg, s.up.log, i);
    }
  }

  // ----- backpressure

  /** Once relaying has begun, at most 64 frames are queued in each direction, each carrying at
      most 64 KiB, and at most 65 chunks have been read and not yet taken by the transport. */
  lemma BoundedBacklog(cfg: Config, run: seq<Action>)
    requires Legal(Init(cfg), run)
    ensures var s := Run(Init(cfg), run);
            && |s.up.queue| <= OUTBOUND_QUEUE && |s.down.queue| <= OUTBOUND_QUEUE
            && (!s.c.uploader.Idle? ==>
                  |UpBytes(s.up.queue)| + (if s.c.uploader.Holding? then |ClientBytes(s.c.uploader.frame)| else 0)
                    <= (OUTBOUND_QUEUE + 1) * DATA_CHUNK_SIZE)
            && |DownBytes(s.down.queue)| + (if s.sv.reader.Holding? then |ServerBytes(s.sv.reader.frame)| else 0)
                 <= (OUTBOUND_QUEUE + 1) * DATA_CHUNK_SIZE
  {
    Reachable(cfg, run);
    if !Run(Init(cfg), run).c.uploader.Idle? {
      UpBacklog(Run(Init(cfg), run));
    }
    DownBacklog(Run(Init(cfg), run));
  }

  lemma ChunkBound(cfg: Config, sent: seq<ClientFrame>, i: nat)
    requires ClientGrammar(cfg, sent) && 1 <= i < |sent|
    ensures |ClientBytes(sent[i])| <= DATA_CHUNK_SIZE
  {
    if i < |sent| - 1 {
      assert sent[..|sent| - 1][i] == sent[i];
    }
  }

  lemma UpBacklog(s: State)
    requires Inv(s) && !s.c.uploader.Idle?
    ensures |UpBytes(s.up.queue)| + (if s.c.uploader.Holding? then |ClientBytes(s.c.uploader.frame)| else 0)
              <= (OUTBOUND_QUEUE + 1) * DATA_CHUNK_SIZE
  {
    hide UpHonest, ServerInv, LoopInv, ClientGrammar, StillUploading, Payload;
    OpenWasReceived(s);
    QueueIsChunks(s.cfg, s.up);
    PayloadBound(ClientBytes, s.up.queue, DATA_CHUNK_SIZE);
  }

  lemma QueueIsChunks(cfg: Config, up: Channel<ClientFrame>)
    requires Fifo(up) && ClientGrammar(cfg, up.log) && up.handled >= 1
    ensures forall i :: 0 <= i < |up.queue| ==> |ClientBytes(up.queue[i])| <= DATA_CHUNK_SIZE
  {
    hide ClientGrammar;
    var k := up.handled + |up.net|;
    forall i | 0 <= i < |up.queue|
      ensures |ClientBytes(up.queue[i])| <= DATA_CHUNK_SIZE
    {
      assert up.queue[i] == up.log[k + i];
      ChunkBound(cfg, up.log, k + i);
    }
  }

  lemma OpenWasReceived(s: State)
    requires Inv(s) && !s.c.uploader.Idle?
    ensures s.up.handled >= 1
  {
    hide UploaderInv, ReaderInv, Relayed, Accepted, HasHalfClose;
    assert s.down.log[0] == Got(s.down)[0];
  }

  lemma DownBacklog(s: State)
    requires Inv(s)
    ensures |DownBytes(s.down.queue)| + (if s.sv.reader.Holding? then |ServerBytes(s.sv.reader.frame)| else 0)
              <= (OUTBOUND_QUEUE + 1) * DATA_CHUNK_SIZE
  {
    hide UploaderInv, LoopInv, MainInv, Interleaves, ReaderGrammar, MainGrammar, DownHonest, StillReading;
    var sent, k := s.down.log, s.down.handled + |s.down.net|;
    forall i | 0 <= i < |s.down.queue|
      ensures |ServerBytes(s.down.queue[i])| <= DATA_CHUNK_SIZE
    {
      assert s.down.queue[i] == sent[k + i];
      if k + i >= 1 {
        LaterServerFrame(sent, s.sv.fromReader, s.sv.fromMain, k + i);
      }
    }
    PayloadBound(ServerBytes, s.down.queue, DATA_CHUNK_SIZE);
  }
}
