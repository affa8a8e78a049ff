/** Runs that show where the code promises less than the design suggests. */
module RelayExamples {
  import opened Bytes
  import opened Channel
  import opened Frames
  import opened Relay

  lemma OpenInFlight(cfg: Config) returns (run: seq<Action>)
    ensures Legal(Init(cfg), run) && FaultFree(run)
    ensures Run(Init(cfg), run) == Init(cfg).(up := Channel([], [COpen(cfg.first)], Flowing, [COpen(cfg.first)], 0))
  {
    hide Legal, Run;
    NoSteps(Init(cfg));
    run := Extend(Init(cfg), [], UpMove);
  }

  /** The Open frame has reached the server. */
  lemma Opening(cfg: Config) returns (run: seq<Action>)
    ensures Legal(Init(cfg), run) && FaultFree(run)
    ensures Run(Init(cfg), run) == Init(cfg).(
              sv := Init(cfg).sv.(main := WritingFirst(cfg.first)),
              up := Channel([], [], Flowing, [COpen(cfg.first)], 1))
  {
    hide Legal, Run;
    run := OpenInFlight(cfg);
    run := Extend(Init(cfg), run, ServerReceive);
    run := Extend(Init(cfg), run, DialOk);
  }

  lemma FirstPayload(cfg: Config) returns (run: seq<Action>)
    ensures Legal(Init(cfg), run) && FaultFree(run)
    ensures Run(Init(cfg), run) == Init(cfg).(
              sv := Init(cfg).sv.(main := Sending(SOpenResult(true), StartRelay), written := cfg.first),
              up := Channel([], [], Flowing, [COpen(cfg.first)], 1))
  {
    run := Opening(cfg);
    hide Legal, Run;
    if cfg.first != [] {
      run := Extend(Init(cfg), run, ServerWrite(|cfg.first|));
    }
    run := Extend(Init(cfg), run, ServerWriteDone);
  }

  /** The tunnel is open, the first payload is written, and both readers have just started. */
  function Established(cfg: Config): State {
    State(cfg,
          Client(CWaiting, Reading, false, 0, [], false),
          Server(SWaiting, Reading, false, 0, cfg.first, false, [], []),
          Channel([], [], Flowing, [COpen(cfg.first)], 1),
          Channel([], [], Flowing, [SOpenResult(true)], 1))
  }

  lemma CanEstablish(cfg: Config) returns (run: seq<Action>)
    ensures Legal(Init(cfg), run) && FaultFree(run) && Run(Init(cfg), run) == Established(cfg)
  {
    run := FirstPayload(cfg);
    hide Legal, Run;
    run := Extend(Init(cfg), run, ServerSend);
    run := Extend(Init(cfg), run, DownMove);
    run := Extend(Init(cfg), run, ClientReceive);
  }

  /** The target's bytes so far have all been written locally; of the local side nothing has
      been read. */
  function Downloaded(cfg: Config, read: nat, chunks: seq<ServerFrame>): State
    requires read <= |cfg.target|
  {
    var log := [SOpenResult(true)] + chunks;
    State(cfg,
          Client(CWaiting, Reading, false, 0, cfg.target[..read], false),
          Server(SWaiting, Reading, false, read, cfg.first, false, chunks, []),
          Channel([], [], Flowing, [COpen(cfg.first)], 1),
          Channel([], [], Flowing, log, |log|))
  }

  /** One chunk is on its way. */
  function ChunkSent(cfg: Config, read: nat, chunks: seq<ServerFrame>, n: nat): State
    requires read + n <= |cfg.target|
  {
    var f := SData(cfg.target[read..read + n]);
    var s := Downloaded(cfg, read, chunks);
    s.(sv := s.sv.(read := read + n, fromReader := chunks + [f]),
       down := Channel([], [f], Flowing, s.down.log + [f], |s.down.log|))
  }

  lemma SendChunk(cfg: Config, run: seq<Action>, read: nat, chunks: seq<ServerFrame>, n: nat) returns (run': seq<Action>)
    requires 1 <= n <= DATA_CHUNK_SIZE && read + n <= |cfg.target|
    requires Legal(Init(cfg), run) && FaultFree(run) && Run(Init(cfg), run) == Downloaded(cfg, read, chunks)
    ensures Legal(Init(cfg), run') && FaultFree(run') && Run(Init(cfg), run') == ChunkSent(cfg, read, chunks, n)
  {
    hide Legal, Run;
    run' := Extend(Init(cfg), run, TargetRead(n));
    run' := Extend(Init(cfg), run', TargetSend);
    run' := Extend(Init(cfg), run', DownMove);
  }

  lemma WriteChunk(cfg: Config, run: seq<Action>, read: nat, chunks: seq<ServerFrame>, n: nat) returns (run': seq<Action>)
    requires n >= 1 && read + n <= |cfg.target|
    requires Legal(Init(cfg), run) && FaultFree(run) && Run(Init(cfg), run) == ChunkSent(cfg, read, chunks, n)
    ensures Legal(Init(cfg), run') && FaultFree(run')
    ensures Run(Init(cfg), run') == Downloaded(cfg, read + n, chunks + [SData(cfg.target[read..read + n])])
  {
    hide Legal, Run;
    run' := Extend(Init(cfg), run, ClientReceive);
    run' := Extend(Init(cfg), run', ClientWrite(n));
    run' := Extend(Init(cfg), run', ClientWriteDone);
    assert cfg.target[..read] + cfg.target[read..read + n] == cfg.target[..read + n];
    assert Run(Init(cfg), run').down.log == Downloaded(cfg, read + n, chunks + [SData(cfg.target[read..read + n])]).down.log;
  }

  /** The target is read to its end while the uploader waits for its first byte. */
  lemma {:induction false} Drain(cfg: Config, run: seq<Action>, read: nat, chunks: seq<ServerFrame>)
    returns (run': seq<Action>, all: seq<ServerFrame>)
    requires read <= |cfg.target|
    requires Legal(Init(cfg), run) && FaultFree(run) && Run(Init(cfg), run) == Downloaded(cfg, read, chunks)
    ensures Legal(Init(cfg), run') && FaultFree(run') && Run(Init(cfg), run') == Downloaded(cfg, |cfg.target|, all)
    decreases |cfg.target| - read
  {
    hide Legal, Run, Downloaded;
    if read == |cfg.target| {
      run', all := run, chunks;
    } else {
      var left := |cfg.target| - read;
      var n := if left < DATA_CHUNK_SIZE then left else DATA_CHUNK_SIZE;
      run' := SendChunk(cfg, run, read, chunks, n);
      run' := WriteChunk(cfg, run', read, chunks, n);
      run', all := Drain(cfg, run', read + n, chunks + [SData(cfg.target[read..read + n])]);
    }
  }

  /** The target closes first, whatever it had to send: a fault-free run, over, with a complete
      download and nothing of a non-empty upload beyond the first payload written. */
  lemma {:induction false} UploadMayBeCutShort(cfg: Config) returns (run: seq<Action>)
    ensures Legal(Init(cfg), run) && FaultFree(run)
    ensures var s := Run(Init(cfg), run);
            && Final(s) && s.c.main == CDone(Completed)
            && s.sv.written == cfg.first && s.c.written == cfg.target
  {
    hide Legal, Run;
    var i := Init(cfg);
    run := CanEstablish(cfg);
    assert Downloaded(cfg, 0, []) == Established(cfg);
    var chunks;
    run, chunks := Drain(cfg, run, 0, []);
    run := CloseFirst(cfg, run, chunks);
    run := Extend(i, run, UploadCancel);
    run := Extend(i, run, UpClose);
    run := Extend(i, run, ServerSeesEnd);
  }

  lemma CloseFirst(cfg: Config, run: seq<Action>, chunks: seq<ServerFrame>) returns (run': seq<Action>)
    requires Legal(Init(cfg), run) && FaultFree(run) && Run(Init(cfg), run) == Downloaded(cfg, |cfg.target|, chunks)
    ensures Legal(Init(cfg), run') && FaultFree(run')
    ensures var s := Downloaded(cfg, |cfg.target|, chunks);
            Run(Init(cfg), run') == s.(
              c := s.c.(main := CDone(Completed), abort := true, shut := true),
              sv := s.sv.(reader := Finished, fromReader := chunks + [SHalfClose]),
              down := s.down.(log := s.down.log + [SHalfClose], handled := |s.down.log| + 1))
  {
    hide Legal, Run;
    run' := Extend(Init(cfg), run, TargetEof);
    run' := Extend(Init(cfg), run', TargetSend);
    run' := Extend(Init(cfg), run', DownMove);
    run' := Extend(Init(cfg), run', ClientReceive);
  }

  /** Only client frames restart the idle timer: the timer alone can end a tunnel in which the
      target is sending and the local side still owes nothing. */
  lemma {:induction false} IdleTimerCutsDownload(cfg: Config) returns (run: seq<Action>)
    requires |cfg.target| >= 2
    ensures Legal(Init(cfg), run)
    ensures forall i :: 0 <= i < |run| && Fault(run[i]) ==> run[i].ServerTimeout?
    ensures var s := Run(Init(cfg), run);
            s.c.main == CDone(Failed) && s.sv.main.SDone? && s.c.written == cfg.target[..1] != cfg.target
  {
    var i := Init(cfg);
    hide Legal, Run;
    run := CanEstablish(cfg);
    assert Downloaded(cfg, 0, []) == Established(cfg);
    run := SendChunk(cfg, run, 0, [], 1);
    run := WriteChunk(cfg, run, 0, [], 1);
    run := Extend(i, run, ServerTimeout);
    run := Extend(i, run, ServerSend);
    run := Extend(i, run, DownMove);
    run := Extend(i, run, ClientReceive);
  }

  /** The abort takes effect late: data can follow the Reset that ends the main loop. */
  lemma ResetIsNotAlwaysLast(cfg: Config) returns (run: seq<Action>)
    requires cfg.target != []
    ensures Legal(Init(cfg), run)
    ensures Run(Init(cfg), run).down.log == [SOpenResult(true), SReset, SData(cfg.target[..1])]
  {
    var i := Init(cfg);
    run := CanEstablish(cfg);
    hide Legal, Run;
    run := Extend(i, run, TargetRead(1));
    run := Extend(i, run, ServerTimeout);
    run := Extend(i, run, ServerSend);
    run := Extend(i, run, TargetSend);
  }

  /** An error return does not abort the uploader: it goes on taking bytes from the local side
      after the relay has failed. */
  lemma {:induction false} UploaderOutlivesFailure(cfg: Config) returns (run: seq<Action>)
    requires cfg.local != []
    ensures Legal(Init(cfg), run)
    ensures var s := Run(Init(cfg), run);
            s.c.main == CDone(Failed) && !s.c.abort && s.c.read == 1 && s.c.uploader == Holding(CData(cfg.local[..1]))
  {
    var i := Init(cfg);
    run := CanEstablish(cfg);
    hide Legal, Run;
    run := Extend(i, run, DownCut(0, Broken));
    run := Extend(i, run, ClientSeesEnd);
    run := Extend(i, run, UploadRead(1));
  }
}
