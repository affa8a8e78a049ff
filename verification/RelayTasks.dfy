/** The code of the four tasks as it is written, updating variables in place.  A method that goes
    from one await point to the next is proved to be a step of the transition system; a method
    that loops hands back, as a ghost result, the run of steps it took. */
module RelayTasks {
  import opened Bytes
  import opened Channel
  import opened Frames
  import opened Relay

  /** What one `read` into the 64 KiB buffer returned. */
  datatype ReadResult = Eof | Count(n: nat) | ReadError

  lemma SlicesMeet(sent: seq<byte>, data: seq<byte>, a: nat, b: nat, c: nat)
    requires a <= b <= c <= |data|
    ensures (sent + data[a..b]) + data[b..c] == sent + data[a..c]
  {
  }

  lemma SliceEnds(sent: seq<byte>, data: seq<byte>, a: nat)
    requires a <= |data|
    ensures sent + data[a..a] == sent && data[a..|data|] == data[a..]
  {
  }

  lemma SplitInOrder(written: seq<byte>, data: seq<byte>, n: nat)
    requires n <= |data|
    ensures (written + data[..n]) + data[n..] == written + data
  {
  }

  class Tunnel {
    const cfg: Config

    var up: Channel<ClientFrame>
    var down: Channel<ServerFrame>

    var clientMain: ClientMain
    var uploader: Task<ClientFrame>
    var uploaderAborted: bool
    var localRead: nat
    var localWritten: seq<byte>
    var localShut: bool

    var serverMain: ServerMain
    var reader: Task<ServerFrame>
    var readerAborted: bool
    var targetRead: nat
    var targetWritten: seq<byte>
    var targetShut: bool
    ghost var fromReader: seq<ServerFrame>
    ghost var fromMain: seq<ServerFrame>

    ghost function View(): State
      reads this
    {
      State(cfg,
            Client(clientMain, uploader, uploaderAborted, localRead, localWritten, localShut),
            Server(serverMain, reader, readerAborted, targetRead, targetWritten, targetShut, fromReader, fromMain),
            up, down)
    }

    constructor (cfg: Config)
      ensures this.cfg == cfg && View() == Init(cfg)
    {
      this.cfg := cfg;
      up := Send(Channel([], [], Flowing, [], 0), COpen(cfg.first));
      down := Channel([], [], Flowing, [], 0);
      clientMain, uploader, uploaderAborted := AwaitResult, Idle, false;
      localRead, localWritten, localShut := 0, [], false;
      serverMain, reader, readerAborted := AwaitOpen, Idle, false;
      targetRead, targetWritten, targetShut := 0, [], false;
      fromReader, fromMain := [], [];
    }

    // ----- client: uploader task

    ghost function UploadAction(r: ReadResult): Action {
      match r
      case Eof => UploadEof
      case Count(n) => UploadRead(n)
      case ReadError => UploadReadFails
    }

    /** One read of the uploader loop: the buffer, cut to what was read, becomes the frame. */
    method UploaderReads(r: ReadResult)
      requires Enabled(View(), UploadAction(r))
      modifies this
      ensures View() == Apply(old(View()), UploadAction(r))
    {
      match r {
        case Eof => uploader := Holding(CHalfClose);
        case Count(n) =>
          var data := cfg.local[localRead..localRead + n];
          localRead := localRead + n;
          uploader := Holding(CData(data));
        case ReadError => uploader := Holding(CReset);
      }
    }

    /** The pending `send` resolves: queued, or refused because the stream is gone. */
    method UploaderSends() returns (ok: bool)
      requires uploader.Holding? && (CanSend(up) || !up.end.Flowing?)
      modifies this
      ensures ok == old(up.end.Flowing?)
      ensures View() == Apply(old(View()), if ok then UploadSend else UploadSendFails)
    {
      var frame := uploader.frame;
      ok := up.end.Flowing?;
      if !ok {
        uploader := Stopped(ClientBytes(frame));
        return;
      }
      up := Send(up, frame);
      uploader := if frame.CData? then Reading else Finished;
    }

    /** `tx.send(frame).await` on a live stream: the transport makes room, then the frame is queued. */
    method SendWhenRoom(ghost start: State, ghost steps: seq<Action>) returns (ghost steps': seq<Action>)
      requires uploader.Holding? && up.end.Flowing? && |up.queue| <= OUTBOUND_QUEUE
      requires Legal(start, steps) && Run(start, steps) == View() && FaultFree(steps)
      modifies this
      ensures Legal(start, steps') && Run(start, steps') == View() && FaultFree(steps')
      ensures View() == old(View()).(c := old(View()).c.(uploader := uploader), up := up)
      ensures up.end.Flowing? && |up.queue| <= OUTBOUND_QUEUE && up.log == old(up.log) + [old(uploader).frame]
      ensures uploader == if old(uploader).frame.CData? then Reading else Finished
    {
      hide Legal, Run;
      steps' := steps;
      if |up.queue| == OUTBOUND_QUEUE {
        steps' := Extend(start, steps', UpMove);
        up := Move(up);
      }
      steps' := Extend(start, steps', UploadSend);
      var ok := UploaderSends();
    }

    /** One pass of the uploader loop: read, then send. */
    method UploadOnce(r: ReadResult, ghost start: State, ghost steps: seq<Action>) returns (ghost steps': seq<Action>)
      requires uploader.Reading? && up.end.Flowing? && |up.queue| <= OUTBOUND_QUEUE && !r.ReadError?
      requires r.Count? ==> 1 <= r.n <= DATA_CHUNK_SIZE && localRead + r.n <= |cfg.local|
      requires r.Eof? ==> localRead == |cfg.local|
      requires Legal(start, steps) && Run(start, steps) == View() && FaultFree(steps)
      modifies this
      ensures Legal(start, steps') && Run(start, steps') == View() && FaultFree(steps')
      ensures View() == old(View()).(c := old(View()).c.(uploader := uploader, read := localRead), up := up)
      ensures up.end.Flowing? && |up.queue| <= OUTBOUND_QUEUE
      ensures r.Count? ==>
        && localRead == old(localRead) + r.n && uploader == Reading
        && UpBytes(up.log) == UpBytes(old(up.log)) + cfg.local[old(localRead)..localRead]
      ensures r.Eof? ==>
        && localRead == old(localRead) && uploader == Finished
        && up.log == old(up.log) + [CHalfClose] && UpBytes(up.log) == UpBytes(old(up.log))
    {
      hide Legal, Run, Payload;
      ghost var log := up.log;
      steps' := Extend(start, steps, UploadAction(r));
      UploaderReads(r);
      PayloadSnoc(ClientBytes, log, uploader.frame);
      steps' := SendWhenRoom(start, steps');
    }

    /** The uploader loop from here to the end of a local side that does not fail, the transport
        making room whenever the queue is full.  `sizes(k)` is what the k-th read is willing to
        return. */
    method UploadToEnd(sizes: nat -> nat) returns (ghost steps: seq<Action>)
      requires uploader.Reading? && up.end.Flowing? && localRead <= |cfg.local| && |up.queue| <= OUTBOUND_QUEUE
      modifies this
      ensures Legal(old(View()), steps) && Run(old(View()), steps) == View() && FaultFree(steps)
      ensures uploader.Finished? && localRead == |cfg.local|
      ensures up.log != [] && up.log[|up.log| - 1] == CHalfClose
      ensures UpBytes(up.log) == UpBytes(old(up.log)) + cfg.local[old(localRead)..]
      ensures View() == old(View()).(c := old(View()).c.(uploader := Finished, read := |cfg.local|), up := up)
    {
      hide Legal, Run, Enabled, Apply, UpBytes;
      ghost var start, from := View(), localRead;
      NoSteps(start);
      SliceEnds(UpBytes(up.log), cfg.local, from);
      steps := [];
      var k := 0;
      while localRead < |cfg.local|
        invariant Legal(start, steps) && Run(start, steps) == View() && FaultFree(steps)
        invariant View() == start.(c := start.c.(read := localRead), up := up)
        invariant up.end.Flowing? && |up.queue| <= OUTBOUND_QUEUE && uploader.Reading?
        invariant from <= localRead <= |cfg.local|
        invariant UpBytes(up.log) == UpBytes(start.up.log) + cfg.local[from..localRead]
      {
        var left := |cfg.local| - localRead;
        var most := if left < DATA_CHUNK_SIZE then left else DATA_CHUNK_SIZE;
        var n := if 1 <= sizes(k) <= most then sizes(k) else most;
        ghost var before := localRead;
        steps := UploadOnce(Count(n), start, steps);
        SlicesMeet(UpBytes(start.up.log), cfg.local, from, before, localRead);
        k := k + 1;
      }
      steps := UploadOnce(Eof, start, steps);
    }

    // ----- client: receive loop

    /** The next inbound frame: first the answer to Open, then the loop's match. */
    method ReceiveServerFrame()
      requires Enabled(View(), ClientReceive)
      modifies this
      ensures View() == Apply(old(View()), ClientReceive)
    {
      var frame := down.net[0];
      down := Receive(down);
      if clientMain.AwaitResult? {
        if frame == SOpenResult(true) {
          clientMain, uploader := CWaiting, Reading;
        } else {
          clientMain, uploaderAborted := CDone(Failed), false;
        }
        return;
      }
      match frame {
        case SData(data) => clientMain := CWriting(data);
        case SHalfClose =>
          localShut := true;
          clientMain, uploaderAborted := CDone(Completed), true;
        case SPong(_) =>
        case _ => clientMain, uploaderAborted := CDone(Failed), false;
      }
    }

    /** The socket takes the first `n` bytes of what is to be written. */
    method WriteLocal(n: nat, ghost start: State, ghost steps: seq<Action>) returns (ghost steps': seq<Action>)
      requires clientMain.CWriting? && 1 <= n <= |clientMain.pending|
      requires Legal(start, steps) && Run(start, steps) == View() && FaultFree(steps)
      modifies this
      ensures Legal(start, steps') && Run(start, steps') == View() && FaultFree(steps')
      ensures clientMain == CWriting(old(clientMain).pending[n..])
      ensures localWritten == old(localWritten) + old(clientMain).pending[..n]
      ensures View() == old(View()).(c := old(View()).c.(main := clientMain, written := localWritten))
    {
      hide Legal, Run;
      steps' := Extend(start, steps, ClientWrite(n));
      var data := clientMain.pending;
      localWritten := localWritten + data[..n];
      clientMain := CWriting(data[n..]);
    }

    /** The whole chunk is out: the receive loop waits for the next frame. */
    method LocalWritten(ghost start: State, ghost steps: seq<Action>) returns (ghost steps': seq<Action>)
      requires clientMain == CWriting([])
      requires Legal(start, steps) && Run(start, steps) == View() && FaultFree(steps)
      modifies this
      ensures Legal(start, steps') && Run(start, steps') == View() && FaultFree(steps')
      ensures View() == old(View()).(c := old(View()).c.(main := CWaiting))
    {
      hide Legal, Run;
      steps' := Extend(start, steps, ClientWriteDone);
      clientMain := CWaiting;
    }

    /** `write_all` to the local side: the whole chunk, in order, however the socket splits it. */
    method WriteAllLocal(sizes: nat -> nat) returns (ghost steps: seq<Action>)
      requires clientMain.CWriting?
      modifies this
      ensures Legal(old(View()), steps) && Run(old(View()), steps) == View() && FaultFree(steps)
      ensures localWritten == old(localWritten) + old(clientMain).pending
      ensures View() == old(View()).(c := old(View()).c.(main := CWaiting, written := localWritten))
    {
      hide Legal, Run, Enabled, Apply;
      ghost var start := View();
      NoSteps(start);
      steps := [];
      var k := 0;
      while clientMain.pending != []
        invariant clientMain.CWriting? && localWritten + clientMain.pending == old(localWritten) + old(clientMain).pending
        invariant Legal(start, steps) && Run(start, steps) == View() && FaultFree(steps)
        invariant View() == start.(c := start.c.(main := clientMain, written := localWritten))
        decreases |clientMain.pending|
      {
        var data := clientMain.pending;
        var n := if 1 <= sizes(k) <= |data| then sizes(k) else |data|;
        ghost var written := localWritten;
        steps := WriteLocal(n, start, steps);
        SplitInOrder(written, data, n);
        k := k + 1;
      }
      steps := LocalWritten(start, steps);
    }

    // ----- server: main loop

    /** The first frame, then the main loop's match. */
    method ReceiveClientFrame()
      requires Enabled(View(), ServerReceive)
      modifies this
      ensures View() == Apply(old(View()), ServerReceive)
    {
      var frame := up.net[0];
      up := Receive(up);
      if serverMain.AwaitOpen? {
        serverMain := if frame.COpen? then Dialing(frame.firstPayload) else Sending(SOpenResult(false), Return);
        return;
      }
      match frame {
        case CData(data) => serverMain := SWriting(data);
        case CHalfClose => targetShut := true;
        case CReset =>
          targetShut := true;
          serverMain, readerAborted := SDone, true;
        case CPing(t) => serverMain := Sending(SPong(t), NextFrame);
        case COpen(_) => serverMain := Sending(SReset, BreakLoop);
        case CEmpty => serverMain := Sending(SReset, BreakLoop);
      }
    }

    /** `inbound.next()` yields no frame: end of stream, or a transport error. */
    method ClientStreamEnds()
      requires Enabled(View(), ServerSeesEnd)
      modifies this
      ensures View() == Apply(old(View()), ServerSeesEnd)
    {
      var opening, broken := serverMain.AwaitOpen?, up.end.Broken?;
      if opening {
        serverMain := if broken then Sending(SReset, Return) else SDone;
        return;
      }
      targetShut := true;
      if broken {
        serverMain := Sending(SReset, BreakLoop);
      } else {
        serverMain, readerAborted := SDone, true;
      }
    }

    /** No client frame within the idle limit. */
    method IdleTimeout()
      requires serverMain.AwaitOpen? || serverMain.SWaiting?
      modifies this
      ensures View() == ServerApply(old(View()), ServerTimeout)
    {
      serverMain := Sending(SReset, if serverMain.AwaitOpen? then Return else BreakLoop);
    }

    /** Policy, resolution and connection together succeed or fail. */
    method Dialed(ok: bool)
      requires serverMain.Dialing?
      modifies this
      ensures View() == ServerApply(old(View()), if ok then DialOk else DialFails)
    {
      serverMain := if ok then WritingFirst(serverMain.first) else Sending(SOpenResult(false), Return);
    }

    /** The socket takes the first `n` bytes of what is to be written. */
    method WriteTarget(n: nat, ghost start: State, ghost steps: seq<Action>) returns (ghost steps': seq<Action>)
      requires (serverMain.WritingFirst? || serverMain.SWriting?) && !targetShut && 1 <= n <= |serverMain.pending|
      requires Legal(start, steps) && Run(start, steps) == View() && FaultFree(steps)
      modifies this
      ensures Legal(start, steps') && Run(start, steps') == View() && FaultFree(steps')
      ensures serverMain == if old(serverMain).WritingFirst? then WritingFirst(old(serverMain).pending[n..])
                            else SWriting(old(serverMain).pending[n..])
      ensures targetWritten == old(targetWritten) + old(serverMain).pending[..n]
      ensures View() == old(View()).(sv := old(View()).sv.(main := serverMain, written := targetWritten))
    {
      hide Legal, Run;
      steps' := Extend(start, steps, ServerWrite(n));
      var data := serverMain.pending;
      targetWritten := targetWritten + data[..n];
      serverMain := if serverMain.WritingFirst? then WritingFirst(data[n..]) else SWriting(data[n..]);
    }

    /** All of it is out: the good OpenResult is due, or the next frame. */
    method TargetWritten(ghost start: State, ghost steps: seq<Action>) returns (ghost steps': seq<Action>)
      requires (serverMain.WritingFirst? || serverMain.SWriting?) && serverMain.pending == []
      requires Legal(start, steps) && Run(start, steps) == View() && FaultFree(steps)
      modifies this
      ensures Legal(start, steps') && Run(start, steps') == View() && FaultFree(steps')
      ensures View() == old(View()).(sv := old(View()).sv.(
                main := if old(serverMain).WritingFirst? then Sending(SOpenResult(true), StartRelay) else SWaiting))
    {
      hide Legal, Run;
      steps' := Extend(start, steps, ServerWriteDone);
      serverMain := if serverMain.WritingFirst? then Sending(SOpenResult(true), StartRelay) else SWaiting;
    }

    /** `write_all` to the target, of the first payload or of a data frame: all of it, in order,
        however the socket splits it; then the good OpenResult is due, or the next frame. */
    method WriteAllTarget(sizes: nat -> nat) returns (ghost steps: seq<Action>)
      requires (serverMain.WritingFirst? || serverMain.SWriting?) && !targetShut
      modifies this
      ensures Legal(old(View()), steps) && Run(old(View()), steps) == View() && FaultFree(steps)
      ensures targetWritten == old(targetWritten) + old(serverMain).pending
      ensures View() == old(View()).(sv := old(View()).sv.(
                main := if old(serverMain).WritingFirst? then Sending(SOpenResult(true), StartRelay) else SWaiting,
                written := targetWritten))
    {
      hide Legal, Run, Enabled, Apply;
      ghost var start := View();
      NoSteps(start);
      steps := [];
      var k, opening := 0, serverMain.WritingFirst?;
      while serverMain.pending != []
        invariant if opening then serverMain.WritingFirst? else serverMain.SWriting?
        invariant targetWritten + serverMain.pending == old(targetWritten) + old(serverMain).pending
        invariant Legal(start, steps) && Run(start, steps) == View() && FaultFree(steps)
        invariant View() == start.(sv := start.sv.(main := serverMain, written := targetWritten))
        decreases |serverMain.pending|
      {
        var left := |serverMain.pending|;
        ghost var data := serverMain.pending;
        var n := if 1 <= sizes(k) <= left then sizes(k) else left;
        ghost var written := targetWritten;
        steps := WriteTarget(n, start, steps);
        SplitInOrder(written, data, n);
        k := k + 1;
      }
      steps := TargetWritten(start, steps);
    }

    /** The pending `send` of the main loop resolves; its error, if any, is ignored. */
    method MainSends()
      requires serverMain.Sending? && (CanSend(down) || !down.end.Flowing?)
      modifies this
      ensures View() == ServerApply(old(View()), if old(down.end.Flowing?) then ServerSend else ServerSendFails)
    {
      var frame, next := serverMain.frame, serverMain.next;
      if down.end.Flowing? {
        down := Send(down, frame);
        if next.NextFrame? || next.BreakLoop? {
          fromMain := fromMain + [frame];
        }
      }
      match next {
        case StartRelay => serverMain, reader := SWaiting, Reading;
        case NextFrame => serverMain := SWaiting;
        case BreakLoop => serverMain, readerAborted := SDone, true;
        case Return => serverMain := SDone;
      }
    }

    // ----- server: target reader task

    ghost function TargetAction(r: ReadResult): Action {
      match r
      case Eof => TargetEof
      case Count(n) => TargetRead(n)
      case ReadError => TargetReadFails
    }

    method ReaderReads(r: ReadResult)
      requires Enabled(View(), TargetAction(r))
      modifies this
      ensures View() == Apply(old(View()), TargetAction(r))
    {
      match r {
        case Eof => reader := Holding(SHalfClose);
        case Count(n) =>
          var data := cfg.target[targetRead..targetRead + n];
          targetRead := targetRead + n;
          reader := Holding(SData(data));
        case ReadError => reader := Holding(SReset);
      }
    }

    method ReaderSends() returns (ok: bool)
      requires reader.Holding? && (CanSend(down) || !down.end.Flowing?)
      modifies this
      ensures ok == old(down.end.Flowing?)
      ensures View() == Apply(old(View()), if ok then TargetSend else TargetSendFails)
    {
      hide Apply, Enabled, ClientApply, TransportApply, ClientEnabled, TransportEnabled;
      ServerActs(View(), if down.end.Flowing? then TargetSend else TargetSendFails);
      var frame := reader.frame;
      ok := down.end.Flowing?;
      if !ok {
        reader := Stopped(ServerBytes(frame));
        return;
      }
      down := Send(down, frame);
      fromReader := fromReader + [frame];
      reader := if frame.SData? then Reading else Finished;
    }
  }
}
