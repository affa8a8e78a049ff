/** Runs in which nothing goes wrong but the server's idle timer: which timeouts spare the download. */
module RelayTimer {
  import opened Bytes
  import opened Channel
  import opened Frames
  import opened Relay
  import opened RelayInvariant
  import opened RelayTheorems
  import opened RelayProgress
  import opened RelayClean

  predicate OnlyTimeouts(run: seq<Action>) {
    forall i :: 0 <= i < |run| && Fault(run[i]) ==> run[i].ServerTimeout?
  }

  /** What ended the client's loop is the Reset it received last, before any half-close. */
  ghost predicate MetReset(got: seq<ServerFrame>) {
    got != [] && got[|got| - 1].SReset? && SHalfClose !in got
  }

  ghost predicate TimedUp(s: State) {
    && !s.up.end.Broken?
    && CReset !in s.up.log && s.c.uploader != Holding(CReset)
    && (s.up.end.Ended? ==> s.c.main.CDone?)
  }

  ghost predicate TimedDown(s: State) {
    && Whole(s.down)
    && SOpenResult(false) !in s.down.log
    && (s.down.end.Ended? ==> s.sv.main.SDone?)
    && (s.sv.main.Sending? ==> s.sv.main.frame != SOpenResult(false) && s.sv.main.frame != SHalfClose)
    && (s.sv.main.Sending? && s.sv.main.next.StartRelay? ==> s.sv.reader.Idle?)
    && (s.sv.reader.Holding? ==> s.sv.reader.frame.SData? || s.sv.reader.frame.SHalfClose?)
    && (SHalfClose in s.down.log <==> s.sv.reader.Finished?)
  }

  /** A Reset is queued only as the main loop ends, and the loop ends on its own only with one. */
  ghost predicate TimedEnd(s: State) {
    && (!s.sv.main.SDone? ==> SReset !in s.down.log)
    && (s.sv.main.Sending? ==> (s.sv.main.frame.SReset? <==> s.sv.main.next.BreakLoop? || s.sv.main.next.Return?))
    && (s.sv.main.SDone? && !s.c.main.CDone? ==> SReset in s.down.log)
  }

  ghost predicate TimedClient(s: State)
    requires Fifo(s.down)
  {
    s.c.main.CDone? ==> s.c.main.outcome.Completed? || (s.c.main.outcome.Failed? && MetReset(Got(s.down)))
  }

  ghost predicate Timed(s: State) {
    Inv(s) && TimedUp(s) && TimedDown(s) && TimedEnd(s) && TimedClient(s)
  }

  lemma TimedInit(cfg: Config)
    ensures Timed(Init(cfg))
  {
    InitInv(cfg);
  }

  // ----- client steps

  lemma ClientStepTimed(s: State, a: Action)
    requires Timed(s) && ClientEnabled(s, a) && !Fault(a)
    ensures Timed(ClientApply(s, a))
  {
    hide Inv, TimedUp, TimedDown, TimedEnd, TimedClient, ClientApply, AtEnd;
    ClientKeeps(s, a);
    ClientStepUp(s, a);
    ClientStepRest(s, a);
    if a.ClientReceive? {
      ReceiveTimed(s);
    } else if a.ClientSeesEnd? {
      NoQuietEnd(s);
    } else {
      ClientStepOutcome(s, a);
    }
  }

  lemma ClientStepUp(s: State, a: Action)
    requires TimedUp(s) && ClientEnabled(s, a) && !Fault(a)
    ensures TimedUp(ClientApply(s, a))
  {
  }

  lemma ClientStepRest(s: State, a: Action)
    requires TimedDown(s) && TimedEnd(s) && ClientEnabled(s, a) && !Fault(a)
    ensures TimedDown(ClientApply(s, a)) && TimedEnd(ClientApply(s, a))
  {
  }

  lemma ClientStepOutcome(s: State, a: Action)
    requires Timed(s) && ClientEnabled(s, a) && !Fault(a) && !a.ClientReceive? && !a.ClientSeesEnd?
    requires Inv(ClientApply(s, a))
    ensures TimedClient(ClientApply(s, a))
  {
    hide UploaderInv, ReaderInv, MainInv, LoopInv, TimedUp, TimedDown, TimedEnd, MetReset;
  }

  /** The frame that ends the client's loop is a half-close or a Reset. */
  lemma ReceiveTimed(s: State)
    requires Timed(s) && ClientEnabled(s, ClientReceive) && Inv(ClientApply(s, ClientReceive))
    ensures TimedClient(ClientApply(s, ClientReceive))
  {
    hide UploaderInv, ReaderInv, MainInv, LoopInv, TimedUp, TimedEnd, MetReset, Fifo;
    DownIsFifo(s);
    ClientMeetsNoError(s);
    NextFrameInLog(s.down);
    ReceiveKeeps(s.down);
    if s.down.net[0].SReset? {
      ResetMet(s.c, Got(s.down));
    }
  }

  lemma DownIsFifo(s: State)
    requires Inv(s)
    ensures Fifo(s.down)
  {
    hide Fifo, UploaderInv, ReaderInv, LoopInv, MainInv;
  }

  lemma ResetMet(c: Client, got: seq<ServerFrame>)
    requires LoopInv(c, got) && (c.main.AwaitResult? || c.main.CWaiting?)
    ensures MetReset(got + [SReset])
  {
    hide DownBytes;
  }

  /** The stream from the server never just ends under a waiting client. */
  lemma NoQuietEnd(s: State)
    requires Timed(s) && (s.c.main.AwaitResult? || s.c.main.CWaiting?)
    ensures !AtEnd(s.down)
  {
    hide UploaderInv, ReaderInv, MainInv, LoopInv, TimedUp, DownBytes;
    NoResetMet(s.c, Got(s.down));
    AllDelivered(s.down);
  }

  lemma NoResetMet(c: Client, got: seq<ServerFrame>)
    requires LoopInv(c, got) && (c.main.AwaitResult? || c.main.CWaiting?)
    ensures SReset !in got
  {
    hide DownBytes;
  }

  // ----- transport steps

  lemma TransportStepTimed(s: State, a: Action)
    requires Timed(s) && TransportEnabled(s, a) && !Fault(a)
    ensures Timed(TransportApply(s, a))
  {
    hide UploaderInv, ReaderInv, MainInv, LoopInv, MetReset;
    TransportKeeps(s, a);
  }

  // ----- server steps

  lemma ServerStepTimed(s: State, a: Action)
    requires Timed(s) && ServerEnabled(s, a) && (Fault(a) ==> a.ServerTimeout?)
    ensures Timed(ServerApply(s, a))
  {
    hide Inv, TimedUp, TimedDown, TimedEnd, TimedClient, ServerApply;
    ServerKeeps(s, a);
    ServerStepOthers(s, a);
    if TargetTask(a) {
      TargetStepTimed(s, a);
    } else {
      MainStepTimed(s, a);
    }
  }

  lemma ServerStepOthers(s: State, a: Action)
    requires Timed(s) && ServerEnabled(s, a) && Inv(ServerApply(s, a))
    ensures TimedUp(ServerApply(s, a)) && TimedClient(ServerApply(s, a))
  {
    hide UploaderInv, ReaderInv, MainInv, LoopInv, MetReset, TimedDown, TimedEnd;
    if a.ServerSend? {
      SendKeeps(s.down, s.sv.main.frame);
    } else if a.TargetSend? {
      SendKeeps(s.down, s.sv.reader.frame);
    }
  }

  lemma TargetStepTimed(s: State, a: Action)
    requires TimedDown(s) && TimedEnd(s) && ServerEnabled(s, a) && TargetTask(a) && !Fault(a)
    ensures TimedDown(ServerApply(s, a)) && TimedEnd(ServerApply(s, a))
  {
  }

  lemma MainStepTimed(s: State, a: Action)
    requires Timed(s) && ServerEnabled(s, a) && !TargetTask(a) && (Fault(a) ==> a.ServerTimeout?)
    ensures TimedDown(ServerApply(s, a)) && TimedEnd(ServerApply(s, a))
  {
    hide Inv, TimedClient;
    match a
    case ServerReceive =>
      ServerMeetsNoError(s);
      NextFromClient(s);
    case ServerSeesEnd =>
    case ServerWriteDone =>
      if s.sv.main.WritingFirst? {
        NotYetSpawned(s);
      }
    case _ =>
  }

  lemma NextFromClient(s: State)
    requires Inv(s) && CanReceive(s.up)
    ensures s.up.net[0] in s.up.log
  {
    hide UploaderInv, ReaderInv, MainInv, LoopInv;
    NextFrameInLog(s.up);
  }

  lemma NotYetSpawned(s: State)
    requires Inv(s) && s.sv.main.WritingFirst?
    ensures s.sv.reader.Idle?
  {
    hide UploaderInv, ReaderInv, LoopInv, Accepted, HasHalfClose;
  }

  // ----- runs

  lemma StepTimed(s: State, a: Action)
    requires Timed(s) && Enabled(s, a) && (Fault(a) ==> a.ServerTimeout?)
    ensures Timed(Apply(s, a))
  {
    hide Timed, ClientApply, TransportApply, ServerApply, ClientEnabled, TransportEnabled, ServerEnabled;
    if ClientEnabled(s, a) {
      TimeoutIsTheServers(s, a);
      ClientStepTimed(s, a);
    } else if TransportEnabled(s, a) {
      TimeoutIsTheServers(s, a);
      TransportStepTimed(s, a);
    } else {
      ServerStepTimed(s, a);
    }
  }

  lemma TimeoutIsTheServers(s: State, a: Action)
    requires ClientEnabled(s, a) || TransportEnabled(s, a)
    ensures !a.ServerTimeout?
  {
  }

  lemma {:induction false} RunTimed(s: State, run: seq<Action>)
    requires Timed(s) && Legal(s, run) && OnlyTimeouts(run)
    ensures Timed(Run(s, run)) && s.down.log <= Run(s, run).down.log
    decreases run
  {
    hide Timed, Enabled, Apply;
    if run != [] {
      assert run[0] == run[0];
      StepTimed(s, run[0]);
      LogGrows(s, run[0]);
      RunTimed(Apply(s, run[0]), run[1..]);
    }
  }

  lemma LogGrows(s: State, a: Action)
    requires Enabled(s, a)
    ensures s.down.log <= Apply(s, a).down.log
  {
    hide ClientEnabled, TransportEnabled, ServerEnabled;
  }

  /** The reader's half-close was queued before any Reset. */
  ghost predicate HalfCloseFirst(log: seq<ServerFrame>) {
    exists j :: 0 <= j < |log| && log[j].SHalfClose? && SReset !in log[..j]
  }

  lemma CompletedMeans(s: State)
    requires Timed(s) && s.c.main.CDone?
    ensures s.c.main == CDone(Completed) <==> HalfCloseFirst(s.down.log)
    ensures s.c.main == CDone(Completed) ==> s.c.written == s.cfg.target
  {
    hide UploaderInv, ReaderInv, MainInv, TimedUp, TimedDown, TimedEnd, DownBytes;
    EndOfDownload(s);
    var log, got := s.down.log, Got(s.down);
    if s.c.main.outcome.Completed? {
      HalfCloseIsFirst(got, log);
    } else if HalfCloseFirst(log) {
      var j :| 0 <= j < |log| && log[j].SHalfClose? && SReset !in log[..j];
      ResetIsFirst(got, log, j);
    }
  }

  lemma HalfCloseIsFirst(got: seq<ServerFrame>, log: seq<ServerFrame>)
    requires got != [] && got <= log && got[|got| - 1].SHalfClose? && Relayed(got[..|got| - 1])
    ensures HalfCloseFirst(log)
  {
    var j := |got| - 1;
    assert log[..j] == got[..j];
    assert log[j] == got[j];
  }

  lemma ResetIsFirst(got: seq<ServerFrame>, log: seq<ServerFrame>, j: nat)
    requires got != [] && got <= log && j < |log| && log[j].SHalfClose? && SReset !in log[..j]
    ensures !MetReset(got)
  {
    var k := |got| - 1;
    assert log[k] == got[k];
    if j <= k {
      assert got[j] == log[j];
    } else {
      assert log[..j][k] == log[k];
    }
  }

  /** For every run whose only faults are timeouts, once the client is done: it holds all of the
      target's bytes and was told so exactly when the reader's half-close was queued before the
      main loop's Reset. */
  lemma TimeoutsSpareDownload(cfg: Config, run: seq<Action>)
    requires Legal(Init(cfg), run) && OnlyTimeouts(run) && Run(Init(cfg), run).c.main.CDone?
    ensures var s := Run(Init(cfg), run);
            && (s.c.main == CDone(Completed) <==> HalfCloseFirst(s.down.log))
            && (s.c.main == CDone(Completed) ==> s.c.written == cfg.target)
  {
    hide Timed, Legal, Run, Inv;
    TimedInit(cfg);
    RunTimed(Init(cfg), run);
    Reachable(cfg, run);
    CompletedMeans(Run(Init(cfg), run));
  }

  /** A run up to the step `a`, that step, and a run after it. */
  ghost predicate Around(cfg: Config, before: seq<Action>, a: Action, after: seq<Action>) {
    && Legal(Init(cfg), before) && Enabled(Run(Init(cfg), before), a)
    && Legal(Apply(Run(Init(cfg), before), a), after)
    && OnlyTimeouts(before) && OnlyTimeouts(after)
  }

  ghost function After(cfg: Config, before: seq<Action>, a: Action, after: seq<Action>): State
    requires Around(cfg, before, a, after)
  {
    Run(Apply(Run(Init(cfg), before), a), after)
  }

  lemma TimedAround(cfg: Config, before: seq<Action>, a: Action, after: seq<Action>)
    requires Around(cfg, before, a, after) && (Fault(a) ==> a.ServerTimeout?)
    ensures var t, s := Run(Init(cfg), before), After(cfg, before, a, after);
            Timed(t) && Timed(s) && s.cfg == cfg && Apply(t, a).down.log <= s.down.log
  {
    hide Timed, Inv, Enabled, Apply, Legal, Run;
    TimedInit(cfg);
    RunTimed(Init(cfg), before);
    var t := Run(Init(cfg), before);
    StepTimed(t, a);
    RunTimed(Apply(t, a), after);
    SameConfig(cfg, before, a, after);
  }

  lemma SameConfig(cfg: Config, before: seq<Action>, a: Action, after: seq<Action>)
    requires Around(cfg, before, a, after)
    ensures After(cfg, before, a, after).cfg == cfg
  {
    hide Inv, Enabled, Apply, Legal, Run;
    Reachable(cfg, before);
    var t := Run(Init(cfg), before);
    StepKeeps(t, a);
    ConfigIsFixed(t, a);
    RunKeeps(Apply(t, a), after);
  }

  lemma ConfigIsFixed(s: State, a: Action)
    requires Enabled(s, a)
    ensures Apply(s, a).cfg == s.cfg
  {
    hide ClientEnabled, TransportEnabled, ServerEnabled;
  }

  /** In terms of the state in which the main loop queues its Reset, whatever follows: once the
      client is done, the download is complete exactly when the target reader had finished. */
  lemma ResetAfterReader(cfg: Config, before: seq<Action>, after: seq<Action>)
    requires Around(cfg, before, ServerSend, after) && After(cfg, before, ServerSend, after).c.main.CDone?
    requires Run(Init(cfg), before).sv.main.Sending? && Run(Init(cfg), before).sv.main.frame.SReset?
    ensures var t, s := Run(Init(cfg), before), After(cfg, before, ServerSend, after);
            && (s.c.main == CDone(Completed) <==> t.sv.reader.Finished?)
            && (t.sv.reader.Finished? ==> s.c.written == cfg.target)
  {
    hide Timed, Inv, Legal, Run, Enabled, Apply;
    TimedAround(cfg, before, ServerSend, after);
    var t, s := Run(Init(cfg), before), After(cfg, before, ServerSend, after);
    CompletedMeans(s);
    OnlyServerSends(t);
    ServerActs(t, ServerSend);
    ResetIsQueued(t);
    FirstTerminal(t.down.log, s.down.log);
  }

  lemma OnlyServerSends(t: State)
    requires Enabled(t, ServerSend)
    ensures ServerEnabled(t, ServerSend)
  {
  }

  lemma OnlyServerTimesOut(t: State)
    requires Enabled(t, ServerTimeout)
    ensures ServerEnabled(t, ServerTimeout)
  {
  }

  lemma ResetIsQueued(t: State)
    requires Timed(t) && ServerEnabled(t, ServerSend) && t.sv.main.frame.SReset?
    ensures SReset !in t.down.log && (SHalfClose in t.down.log <==> t.sv.reader.Finished?)
    ensures ServerApply(t, ServerSend).down.log == t.down.log + [SReset]
  {
    hide Inv, TimedUp, TimedClient;
  }

  /** With a Reset right after `sent`, a half-close comes first exactly if it is in `sent`. */
  lemma FirstTerminal(sent: seq<ServerFrame>, log: seq<ServerFrame>)
    requires sent + [SReset] <= log && SReset !in sent
    ensures HalfCloseFirst(log) <==> SHalfClose in sent
  {
    if SHalfClose in sent {
      HalfCloseStaysFirst(sent, log);
    }
    if HalfCloseFirst(log) {
      var j :| 0 <= j < |log| && log[j].SHalfClose? && SReset !in log[..j];
      FirstIsBeforeReset(sent, log, j);
    }
  }

  lemma FirstIsBeforeReset(sent: seq<ServerFrame>, log: seq<ServerFrame>, j: nat)
    requires sent + [SReset] <= log && j < |log| && log[j].SHalfClose? && SReset !in log[..j]
    ensures SHalfClose in sent
  {
    var k: nat := |sent|;
    PrefixHolds(log, j, k);
    assert log[k] == (sent + [SReset])[k];
    assert (sent + [SReset])[j] == log[j];
  }

  lemma PrefixHolds(log: seq<ServerFrame>, j: nat, k: nat)
    requires j <= |log|
    ensures k < j ==> log[k] in log[..j]
  {
    assert k < j ==> log[..j][k] == log[k];
  }

  lemma HalfCloseStaysFirst(sent: seq<ServerFrame>, log: seq<ServerFrame>)
    requires sent <= log && SReset !in sent && SHalfClose in sent
    ensures HalfCloseFirst(log)
  {
    var j :| 0 <= j < |sent| && sent[j] == SHalfClose;
    assert log[j] == sent[j];
    assert forall i :: 0 <= i < j ==> log[..j][i] == sent[i];
  }

  /** A timer that fires after the target reader has finished spares the download. */
  lemma LateTimerSparesDownload(cfg: Config, before: seq<Action>, after: seq<Action>)
    requires Around(cfg, before, ServerTimeout, after) && After(cfg, before, ServerTimeout, after).c.main.CDone?
    requires Run(Init(cfg), before).sv.reader.Finished?
    ensures var s := After(cfg, before, ServerTimeout, after);
            s.c.main == CDone(Completed) && s.c.written == cfg.target
  {
    hide Timed, Inv, Legal, Run, Enabled, Apply;
    TimedAround(cfg, before, ServerTimeout, after);
    var t, s := Run(Init(cfg), before), After(cfg, before, ServerTimeout, after);
    CompletedMeans(s);
    OnlyServerTimesOut(t);
    ServerActs(t, ServerTimeout);
    TimerFires(t);
    HalfCloseStaysFirst(t.down.log, s.down.log);
  }

  lemma TimerFires(t: State)
    requires Timed(t) && ServerEnabled(t, ServerTimeout) && t.sv.reader.Finished?
    ensures SReset !in t.down.log && SHalfClose in t.down.log
    ensures ServerApply(t, ServerTimeout).down.log == t.down.log
  {
    hide Inv, TimedUp, TimedClient;
  }

  lemma NoFaultNoTimeout(run: seq<Action>)
    requires FaultFree(run)
    ensures OnlyTimeouts(run)
  {
  }

  /** The Reset of a timer that has just fired gets into the queue. */
  lemma ResetGoesOut(t: State) returns (u: State, run: seq<Action>)
    requires Timed(t) && t.sv.main.Sending? && t.sv.main.frame.SReset?
    ensures Legal(t, run) && FaultFree(run) && Timed(u) && ServerEnabled(u, ServerSend)
    ensures u.sv == t.sv && Run(t, run) == ServerApply(u, ServerSend)
  {
    hide Legal, Run, Inv, Fifo, TimedUp, TimedEnd, TimedClient, Enabled, Apply;
    DownIsFifo(t);
    var room := RoomInQueue(t);
    NoFaultNoTimeout(room);
    RunTimed(t, room);
    u := Run(t, room);
    ServerActs(u, ServerSend);
    run := Extend(t, room, ServerSend);
  }

  /** A timer that fires before the target reader has finished can cost the download its end. */
  lemma EarlyTimerMayCut(t: State) returns (run: seq<Action>)
    requires Timed(t) && t.sv.main.Sending? && t.sv.main.frame.SReset? && !t.sv.reader.Finished?
    ensures Legal(t, run) && FaultFree(run)
    ensures Run(t, run).c.main.CDone? && Run(t, run).c.main != CDone(Completed)
  {
    hide Legal, Run, Inv, TimedUp, TimedDown, TimedEnd, TimedClient, HalfCloseFirst;
    var u, first := ResetGoesOut(t);
    NoFaultNoTimeout(first);
    RunTimed(t, first);
    var v := Run(t, first);
    ReadsAreBounded(v);
    var last := CanAlwaysFinish(v);
    NoFaultNoTimeout(last);
    RunTimed(v, last);
    Join(t, first, last);
    run := first + last;
    CompletedMeans(Run(v, last));
    ResetIsQueued(u);
    FirstTerminal(u.down.log, Run(v, last).down.log);
  }

  /** At the moment the timer fires, after any run whose only faults were timeouts: every way on
      that ends the client's loop, however the tasks interleave, completes the download exactly
      when the target reader has finished. */
  lemma TimerSparesExactly(cfg: Config, before: seq<Action>)
    requires Legal(Init(cfg), before) && OnlyTimeouts(before) && Enabled(Run(Init(cfg), before), ServerTimeout)
    ensures (forall after ::
               Around(cfg, before, ServerTimeout, after) && After(cfg, before, ServerTimeout, after).c.main.CDone? ==>
                 After(cfg, before, ServerTimeout, after).c.main == CDone(Completed))
              <==> Run(Init(cfg), before).sv.reader.Finished?
  {
    hide Timed, Inv, Legal, Run, Enabled, Apply;
    var t := Run(Init(cfg), before);
    if t.sv.reader.Finished? {
      forall after | Around(cfg, before, ServerTimeout, after) && After(cfg, before, ServerTimeout, after).c.main.CDone?
        ensures After(cfg, before, ServerTimeout, after).c.main == CDone(Completed)
      {
        LateTimerSparesDownload(cfg, before, after);
      }
    } else {
      TimedInit(cfg);
      RunTimed(Init(cfg), before);
      StepTimed(t, ServerTimeout);
      OnlyServerTimesOut(t);
      ServerActs(t, ServerTimeout);
      TimeoutSendsReset(t);
      var after := EarlyTimerMayCut(Apply(t, ServerTimeout));
      NoFaultNoTimeout(after);
      assert Around(cfg, before, ServerTimeout, after);
    }
  }

  lemma TimeoutSendsReset(t: State)
    requires ServerEnabled(t, ServerTimeout)
    ensures var u := ServerApply(t, ServerTimeout);
            u.sv.main.Sending? && u.sv.main.frame.SReset? && u.sv.reader == t.sv.reader
  {
  }
}
