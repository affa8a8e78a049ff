/** Runs in which nothing outside the two programs goes wrong. */
module RelayClean {
  import opened Bytes
  import opened Channel
  import opened Frames
  import opened Relay
  import opened RelayInvariant
  import opened RelayTheorems
  import opened RelayProgress

  /** A direction has lost nothing and, if it has ended, has delivered what it was given. */
  ghost predicate Whole<F>(ch: Channel<F>) {
    !ch.end.Broken? && (ch.end.Ended? ==> ch.handled + |ch.net| == |ch.log|)
  }

  ghost predicate CleanClient(s: State) {
    && Whole(s.up)
    && (forall i :: 0 <= i < |s.up.log| ==> !s.up.log[i].CReset?)
    && s.c.uploader != Holding(CReset)
    && (s.up.end.Ended? ==> s.c.main.CDone? && !Active(s.c.uploader))
    && (s.c.main.CDone? ==> s.c.main.outcome.Completed?)
  }

  predicate Refusal(f: ServerFrame) {
    f.SReset? || f == SOpenResult(false)
  }

  ghost predicate CleanServer(s: State)
    requires Fifo(s.up)
  {
    && Whole(s.down)
    && (forall i :: 0 <= i < |s.down.log| ==> !Refusal(s.down.log[i]))
    && s.sv.reader != Holding(SReset)
    && (s.down.end.Ended? ==> s.sv.main.SDone? && !Active(s.sv.reader))
    && (s.sv.main.Sending? ==> s.sv.main.next.StartRelay? || s.sv.main.next.NextFrame?)
    && (s.sv.main.SDone? ==>
          s.c.main.CDone? && s.up.end.Ended? && s.up.net == [] && s.sv.written == UpBytes(Got(s.up)) && s.sv.shut)
  }

  ghost predicate Clean(s: State) {
    Inv(s) && CleanClient(s) && CleanServer(s)
  }

  lemma CleanClientStep(s: State, a: Action)
    requires Clean(s) && ClientEnabled(s, a) && !Fault(a)
    ensures CleanClient(ClientApply(s, a))
  {
    hide UploaderInv, LoopInv, ReaderInv, MainInv, DownBytes, UpBytes;
    if a.ClientReceive? {
      NextFrameInLog(s.down);
      ClientMeetsNoError(s);
    }
  }

  lemma CleanClientStepServer(s: State, a: Action)
    requires Clean(s) && ClientEnabled(s, a) && !Fault(a)
    ensures Inv(ClientApply(s, a)) && CleanServer(ClientApply(s, a))
  {
    hide UploaderInv, LoopInv, ReaderInv, MainInv;
    ClientKeeps(s, a);
  }

  lemma CleanTransportStep(s: State, a: Action)
    requires Clean(s) && TransportEnabled(s, a) && !Fault(a)
    ensures Clean(TransportApply(s, a))
  {
    hide UploaderInv, LoopInv, ReaderInv, MainInv;
    TransportKeeps(s, a);
  }

  lemma CleanServerStep(s: State, a: Action)
    requires Clean(s) && ServerEnabled(s, a) && !Fault(a)
    ensures Inv(ServerApply(s, a)) && CleanServer(ServerApply(s, a))
  {
    hide Inv, CleanClient, CleanServer, ServerApply;
    ServerKeeps(s, a);
    match a
    case ServerReceive => CleanServerReceive(s, a);
    case ServerSeesEnd => CleanServerEnd(s, a);
    case ServerSend => CleanServerSend(s, a);
    case _ => CleanServerOther(s, a);
  }

  lemma CleanServerOther(s: State, a: Action)
    requires Clean(s) && ServerEnabled(s, a) && !Fault(a) && Inv(ServerApply(s, a))
    requires !a.ServerReceive? && !a.ServerSeesEnd? && !a.ServerSend?
    ensures CleanServer(ServerApply(s, a))
  {
    hide UploaderInv, LoopInv, ReaderInv, MainInv, CleanClient;
    if a.TargetSend? {
      ReaderFrameIsGood(s.cfg, s.sv, s.down.log, s.down.end.Flowing?);
    }
  }

  lemma ReaderFrameIsGood(cfg: Config, sv: Server, sent: seq<ServerFrame>, flowing: bool)
    requires ReaderInv(cfg, sv, sent, flowing) && sv.reader.Holding?
    ensures sv.reader.frame.SData? || DownTerminal(sv.reader.frame)
  {
  }

  lemma CleanServerReceive(s: State, a: Action)
    requires Clean(s) && a.ServerReceive? && ServerEnabled(s, a) && Inv(ServerApply(s, a))
    ensures CleanServer(ServerApply(s, a))
  {
    hide UploaderInv, LoopInv, ReaderInv, MainInv;
    NextFrameInLog(s.up);
    ServerMeetsNoError(s);
  }

  lemma CleanServerEnd(s: State, a: Action)
    requires Clean(s) && a.ServerSeesEnd? && ServerEnabled(s, a) && Inv(ServerApply(s, a))
    ensures CleanServer(ServerApply(s, a))
  {
    hide UploaderInv, LoopInv, ReaderInv, MainInv;
    ServerAccounts(s.sv, s.down.log, Got(s.up));
    OpenWasSeen(s);
  }

  /** When everything sent has been received the server is past its wait for the Open. */
  lemma OpenWasSeen(s: State)
    requires Inv(s) && Whole(s.up) && AtEnd(s.up)
    ensures !s.sv.main.AwaitOpen?
  {
    hide LoopInv, ReaderInv, UpHonest, UpBytes, Accepted, HasHalfClose;
    GrammarStarts(s.cfg, s.up.log);
    AllDelivered(s.up);
  }

  lemma AllDelivered<F>(ch: Channel<F>)
    requires Fifo(ch) && Whole(ch)
    ensures AtEnd(ch) ==> Got(ch) == ch.log
  {
  }

  lemma CleanServerSend(s: State, a: Action)
    requires Clean(s) && a.ServerSend? && ServerEnabled(s, a) && Inv(ServerApply(s, a))
    ensures CleanServer(ServerApply(s, a))
  {
    hide UploaderInv, LoopInv, ReaderInv, MainInv;
    OpenResultIsGood(s.sv, s.down.log, Got(s.up));
  }

  lemma OpenResultIsGood(sv: Server, sent: seq<ServerFrame>, got: seq<ClientFrame>)
    requires MainInv(sv, sent, got) && sv.main.Sending? && (sv.main.next.StartRelay? || sv.main.next.NextFrame?)
    ensures !Refusal(sv.main.frame)
  {
  }

  lemma CleanStep(s: State, a: Action)
    requires Clean(s) && Enabled(s, a) && !Fault(a)
    ensures Clean(Apply(s, a))
  {
    hide Inv, CleanClient, CleanServer, ClientApply, TransportApply;
    hide ServerApply, ClientEnabled, TransportEnabled, ServerEnabled;
    if ClientEnabled(s, a) {
      CleanClientStep(s, a);
      CleanClientStepServer(s, a);
    } else if TransportEnabled(s, a) {
      CleanTransportStep(s, a);
    } else {
      CleanServerStep(s, a);
      CleanServerStepClient(s, a);
    }
  }

  lemma CleanServerStepClient(s: State, a: Action)
    requires Clean(s) && ServerEnabled(s, a)
    ensures CleanClient(ServerApply(s, a))
  {
    hide Inv, CleanServer;
  }

  lemma {:induction false} CleanRun(s: State, run: seq<Action>)
    requires Clean(s) && Legal(s, run) && FaultFree(run)
    ensures Clean(Run(s, run)) && Run(s, run).cfg == s.cfg
    decreases run
  {
    hide Clean, Enabled;
    if run != [] {
      CleanStep(s, run[0]);
      CleanRun(Apply(s, run[0]), run[1..]);
    }
  }

  lemma CleanInit(cfg: Config)
    ensures Clean(Init(cfg))
  {
    InitInv(cfg);
    hide Inv;
  }

  /** A fault-free run that is over, or has gone as far as it can: the local side holds all of
      the target's bytes and was told so by a half-close. */
  lemma CompleteDownload(cfg: Config, run: seq<Action>)
    requires Legal(Init(cfg), run) && FaultFree(run)
    requires Final(Run(Init(cfg), run)) || forall a :: Enabled(Run(Init(cfg), run), a) ==> Fault(a)
    ensures var s := Run(Init(cfg), run);
            Final(s) && s.c.main == CDone(Completed) && s.c.shut && s.c.written == cfg.target
  {
    CleanInit(cfg);
    CleanRun(Init(cfg), run);
    var s := Run(Init(cfg), run);
    hide Run, Legal, Enabled;
    if !Final(s) {
      var a := NeverStuck(s);
      assert false;
    }
    DownloadEndIsHonest(cfg, run);
    hide UploaderInv, ReaderInv, MainInv, Relayed;
  }

  /** What the target is left with after such a run: everything the uploader read, short of a
      chunk it was holding when the client, having seen the target's end first, aborted it.
      So the upload is complete exactly when the uploader had read to the end and lost nothing,
      and always when it got to send its HalfClose. */
  lemma UploadAfterCompletion(cfg: Config, run: seq<Action>)
    requires Legal(Init(cfg), run) && FaultFree(run) && Final(Run(Init(cfg), run))
    ensures var s := Run(Init(cfg), run);
            var lost := Carried(ClientBytes, s.c.uploader);
            && s.c.read <= |cfg.local|
            && s.sv.written + lost == cfg.first + cfg.local[..s.c.read]
            && (s.sv.written == cfg.first + cfg.local <==> s.c.read == |cfg.local| && lost == [])
            && (s.c.uploader.Finished? ==> s.sv.written == cfg.first + cfg.local)
            && s.sv.shut
  {
    CleanInit(cfg);
    CleanRun(Init(cfg), run);
    var s := Run(Init(cfg), run);
    EverythingSentWasWritten(s);
    hide Run, Legal, ReaderInv, LoopInv, MainInv, ClientGrammar, StillUploading, UpHonest, CleanServer, CleanClient;
    var lost := Carried(ClientBytes, s.c.uploader);
    assert |s.sv.written| + |lost| == |cfg.first| + s.c.read;
    if s.c.read == |cfg.local| {
      assert cfg.local[..s.c.read] == cfg.local;
    }
    if s.c.uploader.Finished? {
      FinishedSentEverything(s.cfg, s.c.read, s.up.log);
    }
  }

  lemma EverythingSentWasWritten(s: State)
    requires Clean(s) && Final(s)
    ensures s.sv.written == UpBytes(s.up.log)
    ensures s.c.uploader.Finished? ==> s.up.log != [] && !s.up.log[|s.up.log| - 1].CReset?
  {
    assert s.c.uploader.Finished? ==> s.up.log != [] by {
      hide ReaderInv, LoopInv, MainInv, UpHonest, ClientGrammar;
    }
    hide UploaderInv, ReaderInv, LoopInv, MainInv;
    assert Got(s.up) == s.up.log;
  }

  lemma FinishedSentEverything(cfg: Config, read: nat, sent: seq<ClientFrame>)
    requires UploaderInv(cfg, read, Finished, sent) && !sent[|sent| - 1].CReset?
    ensures UpBytes(sent) == cfg.first + cfg.local
  {
    hide ClientGrammar, StillUploading;
    var last := |sent| - 1;
    PayloadSnoc(ClientBytes, sent[..last], sent[last]);
    assert sent == sent[..last] + [sent[last]];
  }
}
