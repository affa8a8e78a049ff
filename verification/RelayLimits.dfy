/** Where the design promises more than the code keeps: exactly when it is kept. */
module RelayLimits {
  import opened Bytes
  import opened Channel
  import opened Frames
  import opened Relay
  import opened RelayInvariant
  import opened RelayTheorems
  import opened RelayProgress
  import opened RelayClean
  import opened RelayExamples

  // ----- the server's last frame

  /** The main loop is over and the target reader can send no more. */
  predicate Quiet(s: State) {
    s.sv.main.SDone? && !(Active(s.sv.reader) && s.down.end.Flowing?)
  }

  lemma QuietStep(s: State, a: Action)
    requires Quiet(s) && Enabled(s, a)
    ensures Quiet(Apply(s, a)) && Apply(s, a).down.log == s.down.log
  {
    hide ClientEnabled, ClientApply, TransportEnabled, TransportApply, ServerApply;
    if ClientEnabled(s, a) {
      QuietClient(s, a);
    } else if TransportEnabled(s, a) {
      QuietTransport(s, a);
    } else {
      QuietServer(s, a);
    }
  }

  lemma QuietClient(s: State, a: Action)
    requires Quiet(s) && ClientEnabled(s, a)
    ensures Quiet(ClientApply(s, a)) && ClientApply(s, a).down.log == s.down.log
  {
  }

  lemma QuietTransport(s: State, a: Action)
    requires Quiet(s) && TransportEnabled(s, a)
    ensures Quiet(TransportApply(s, a)) && TransportApply(s, a).down.log == s.down.log
  {
  }

  lemma QuietServer(s: State, a: Action)
    requires Quiet(s) && ServerEnabled(s, a)
    ensures Quiet(ServerApply(s, a)) && ServerApply(s, a).down.log == s.down.log
  {
  }

  lemma {:induction false} QuietRun(s: State, more: seq<Action>)
    requires Quiet(s) && Legal(s, more)
    ensures Run(s, more).down.log == s.down.log
    decreases more
  {
    hide Quiet, Enabled, Apply;
    if more != [] {
      QuietStep(s, more[0]);
      QuietRun(Apply(s, more[0]), more[1..]);
    }
  }

  lemma ReaderSlipsIn(s: State) returns (more: seq<Action>)
    requires Fifo(s.down) && Active(s.sv.reader) && s.down.end.Flowing?
    ensures Legal(s, more) && |Run(s, more).down.log| == |s.down.log| + 1
  {
    hide Legal, Run, Enabled, Apply, Fifo;
    more := RoomInQueue(s);
    more := FrameInHand(s, more);
    var t := Run(s, more);
    ServerActs(t, TargetSend);
    more := Extend(s, more, TargetSend);
  }

  lemma FrameInHand(s: State, run: seq<Action>) returns (more: seq<Action>)
    requires Legal(s, run) && Active(Run(s, run).sv.reader)
    ensures Legal(s, more) && Run(s, more).sv.reader.Holding? && Run(s, more).down == Run(s, run).down
  {
    hide Legal, Run;
    more := run;
    if Run(s, run).sv.reader.Reading? {
      more := Extend(s, more, TargetReadFails);
    }
  }

  lemma DownIsFifo(s: State)
    requires Inv(s)
    ensures Fifo(s.down)
  {
    hide Fifo, UploaderInv, ReaderInv, LoopInv, MainInv;
  }

  /** Once the main loop has ended, with its Reset or otherwise: what the server has sent is final
      exactly when the target reader is gone or the stream is. */
  lemma ResetIsLast(cfg: Config, run: seq<Action>)
    requires Legal(Init(cfg), run) && Run(Init(cfg), run).sv.main.SDone?
    ensures var s := Run(Init(cfg), run);
            (forall more :: Legal(s, more) ==> Run(s, more).down.log == s.down.log)
              <==> !(Active(s.sv.reader) && s.down.end.Flowing?)
  {
    hide Inv, Legal, Run, Fifo;
    Reachable(cfg, run);
    var s := Run(Init(cfg), run);
    DownIsFifo(s);
    if Quiet(s) {
      forall more | Legal(s, more)
        ensures Run(s, more).down.log == s.down.log
      {
        QuietRun(s, more);
      }
    } else {
      var more := ReaderSlipsIn(s);
    }
  }

  // ----- aborting the uploader

  /** The receive loop is over and the uploader will never be aborted. */
  predicate Spared(s: State) {
    s.c.main.CDone? && !(s.c.abort && Active(s.c.uploader))
  }

  lemma SparedStep(s: State, a: Action)
    requires Spared(s) && Enabled(s, a)
    ensures Spared(Apply(s, a)) && a != UploadCancel
  {
    hide TransportApply, ServerApply, ClientApply;
    if ClientEnabled(s, a) {
      SparedClient(s, a);
    } else {
      hide ClientEnabled, TransportEnabled, ServerEnabled;
      OthersLeaveClient(s, a);
    }
  }

  lemma SparedClient(s: State, a: Action)
    requires Spared(s) && ClientEnabled(s, a)
    ensures Spared(ClientApply(s, a)) && a != UploadCancel
  {
  }

  lemma OthersLeaveClient(s: State, a: Action)
    requires Enabled(s, a) && !ClientEnabled(s, a)
    ensures Apply(s, a).c == s.c && a != UploadCancel
  {
  }

  lemma {:induction false} SparedRun(s: State, more: seq<Action>)
    requires Spared(s) && Legal(s, more)
    ensures Spared(Run(s, more)) && !Enabled(Run(s, more), UploadCancel)
    decreases more
  {
    hide Apply;
    if more != [] {
      SparedStep(s, more[0]);
      SparedRun(Apply(s, more[0]), more[1..]);
    }
  }

  /** Once the receive loop has ended: the uploader can still be aborted exactly when the loop did
      not fail and the uploader is still alive.  After a failure nothing ever aborts it. */
  lemma AbortFollowsSuccess(cfg: Config, run: seq<Action>)
    requires Legal(Init(cfg), run) && Run(Init(cfg), run).c.main.CDone?
    ensures var s := Run(Init(cfg), run);
            (exists more :: Legal(s, more) && Enabled(Run(s, more), UploadCancel))
              <==> !s.c.main.outcome.Failed? && Active(s.c.uploader)
  {
    hide Inv, Legal, Run;
    Reachable(cfg, run);
    var s := Run(Init(cfg), run);
    AbortIsOutcome(s);
    if Spared(s) {
      forall more | Legal(s, more)
        ensures !Enabled(Run(s, more), UploadCancel)
      {
        SparedRun(s, more);
      }
    } else {
      NoSteps(s);
      assert Legal(s, []) && Enabled(Run(s, []), UploadCancel);
    }
  }

  lemma AbortIsOutcome(s: State)
    requires Inv(s) && s.c.main.CDone?
    ensures s.c.abort <==> !s.c.main.outcome.Failed?
  {
    hide UploaderInv, ReaderInv, MainInv, Relayed, DownBytes;
  }

  /** A target reader that is still alive can be aborted exactly when the main loop has ended, in
      whatever way. */
  lemma AbortReachesReader(cfg: Config, run: seq<Action>)
    requires Legal(Init(cfg), run) && Active(Run(Init(cfg), run).sv.reader)
    ensures var s := Run(Init(cfg), run);
            Enabled(s, TargetCancel) <==> s.sv.main.SDone?
  {
    hide Inv, Legal, Run;
    Reachable(cfg, run);
    AbortIsEnd(Run(Init(cfg), run));
  }

  lemma AbortIsEnd(s: State)
    requires Inv(s) && Active(s.sv.reader)
    ensures s.sv.abort <==> s.sv.main.SDone?
  {
    hide ClientInv, ServerGrammar, DownHonest, DownBytes, UpBytes, Accepted, HasHalfClose, OnlyPongs, StillReading;
  }

  // ----- when the client sends a Reset

  /** `failed`: reading the local side has failed at some point. */
  ghost predicate ResetStory(s: State, failed: bool) {
    && (CReset in s.up.log <==> failed && s.c.uploader.Finished?)
    && (s.c.main.AwaitResult? ==> s.c.uploader.Idle?)
    && (s.c.uploader == Holding(CReset) ==> failed)
    && (failed ==> s.c.uploader == Holding(CReset) || s.c.uploader.Finished? || s.c.uploader.Stopped?)
  }

  lemma ResetStoryStep(s: State, a: Action, failed: bool)
    requires ResetStory(s, failed) && Enabled(s, a)
    ensures ResetStory(Apply(s, a), failed || a.UploadReadFails?)
  {
    hide ClientApply, TransportApply, ServerApply;
    if ClientEnabled(s, a) {
      ResetStoryClient(s, a, failed);
    } else {
      hide ClientEnabled, TransportEnabled, ServerEnabled;
      OthersLeaveUploader(s, a);
    }
  }

  lemma ResetStoryClient(s: State, a: Action, failed: bool)
    requires ResetStory(s, failed) && ClientEnabled(s, a)
    ensures ResetStory(ClientApply(s, a), failed || a.UploadReadFails?)
  {
  }

  lemma OthersLeaveUploader(s: State, a: Action)
    requires Enabled(s, a) && !ClientEnabled(s, a)
    ensures Apply(s, a).c == s.c && Apply(s, a).up.log == s.up.log && !a.UploadReadFails?
  {
  }

  lemma {:induction false} ResetStoryRun(s: State, run: seq<Action>, failed: bool)
    requires ResetStory(s, failed) && Legal(s, run)
    ensures ResetStory(Run(s, run), failed || UploadReadFails in run)
    decreases run
  {
    hide ResetStory, Enabled, Apply;
    if run != [] {
      ResetStoryStep(s, run[0], failed);
      ResetStoryRun(Apply(s, run[0]), run[1..], failed || run[0].UploadReadFails?);
      assert UploadReadFails in run <==> run[0] == UploadReadFails || UploadReadFails in run[1..];
    }
  }

  /** The client sends a Reset exactly when reading the local side failed and the uploader lived
      to send it; no other error on either side makes it send one. */
  lemma ResetReportsReadError(cfg: Config, run: seq<Action>)
    requires Legal(Init(cfg), run)
    ensures var s := Run(Init(cfg), run);
            CReset in s.up.log <==> UploadReadFails in run && s.c.uploader.Finished?
  {
    assert ResetStory(Init(cfg), false);
    ResetStoryRun(Init(cfg), run, false);
  }

  // ----- complete uploads

  /** Every fault-free run that is over has written the whole upload. */
  ghost predicate AlwaysUploads(cfg: Config) {
    forall run :: Legal(Init(cfg), run) && FaultFree(run) && Final(Run(Init(cfg), run)) ==>
      Run(Init(cfg), run).sv.written == cfg.first + cfg.local
  }

  /** For every first payload and every target: fault-free runs always complete the upload exactly
      when there is nothing to upload beyond the first payload. */
  lemma UploadIsSureOnlyIfEmpty(cfg: Config)
    ensures AlwaysUploads(cfg) <==> cfg.local == []
  {
    hide Legal, Run, Final;
    if cfg.local == [] {
      forall run | Legal(Init(cfg), run) && FaultFree(run) && Final(Run(Init(cfg), run))
        ensures Run(Init(cfg), run).sv.written == cfg.first + cfg.local
      {
        FirstPayloadIsWritten(cfg, run);
      }
    } else {
      var run := UploadMayBeCutShort(cfg);
      assert |cfg.first + cfg.local| > |cfg.first|;
    }
  }

  lemma FirstPayloadIsWritten(cfg: Config, run: seq<Action>)
    requires Legal(Init(cfg), run) && FaultFree(run) && Final(Run(Init(cfg), run)) && cfg.local == []
    ensures Run(Init(cfg), run).sv.written == cfg.first
  {
    hide Legal, Run, Final, Inv, ClientGrammar, ServerGrammar;
    UploadAfterCompletion(cfg, run);
    CompleteDownload(cfg, run);
    OutputConforms(cfg, run);
    Reachable(cfg, run);
    var s := Run(Init(cfg), run);
    CompletedOpens(s);
    assert cfg.first + cfg.local[..s.c.read] == cfg.first;
  }

  lemma CompletedOpens(s: State)
    requires Inv(s) && s.c.main == CDone(Completed)
    ensures s.down.log != [] && s.down.log[0] == SOpenResult(true)
  {
    hide UploaderInv, ReaderInv, MainInv, DownBytes;
    var got := Got(s.down);
    assert got[0] == s.down.log[0];
    assert got[..|got| - 1][0] == got[0];
  }
}
