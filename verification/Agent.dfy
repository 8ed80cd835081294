/** The target agent's daemon (cmd/reach-agent/main.go): its main loop, the reconciliation with the hub's
    answer, the commands, and the fields that hold the one tunnel.
    What the daemon cannot decide is input: whether a probe, a dial or a heartbeat works, whether a stopped
    tunnel ends within five seconds, when a tunnel ends by itself, and the clock. */
module Agent {
  import Backoff
  import opened Options

  // ---------- State ----------

  /** A tunnel that was opened: its context was cancelled, its serve has returned. */
  datatype Tunnel = Tunnel(cancelled: bool, finished: bool)

  datatype Status = Stopped | Failed | Connected

  datatype Outcome = Acked | Refused

  datatype CommandResult = CommandResult(id: string, outcome: Outcome)

  /** The daemon's fields, with the tunnels opened so far and the results put into heartbeats so far.
      `done` and `cancel` are tunnelDone and tunnelCancel, named by the tunnel they belong to; `since` is
      ConnectedSince. `failures` records the events that drive tunnelBackoff. */
  datatype State = State(
    done: Option<nat>,
    cancel: Option<nat>,
    stopping: bool,
    backoff: Backoff.Int64,
    status: Status,
    since: Option<int>,
    appliedGeneration: int,
    pending: seq<CommandResult>,
    tunnels: seq<Tunnel>,
    reported: seq<CommandResult>,
    failures: seq<Backoff.Event>)

  const START := State(None, None, false, 0, Stopped, None, 0, [], [], [], [])

  // ---------- Steps of the daemon ----------

  function SetTunnel(st: State, status: Status, now: int): State {
    st.(status := status,
        since := if status != Connected then None else if st.since.None? then Some(now) else st.since)
  }

  predicate TunnelRunning(st: State) {
    st.done.Some? && st.cancel.Some?
  }

  /** What a start meets: the local sshd, a usable transport, the dial. */
  datatype Attempt = Attempt(sshOk: bool, transport: bool, dialOk: bool, now: int)

  function StartTunnel(st: State, a: Attempt): State {
    if !a.dialOk then SetTunnel(st, Failed, a.now)
    else
      SetTunnel(st, Connected, a.now).(tunnels := st.tunnels + [Tunnel(false, false)],
      cancel := Some(|st.tunnels|), done := Some(|st.tunnels|), stopping := false)
  }

  function ClearTunnelState(st: State): State {
    st.(cancel := None, done := None, stopping := false)
  }

  /** `drained`: the tunnel ended within five seconds of its cancellation. */
  function CancelTunnel(tunnels: seq<Tunnel>, id: Option<nat>, drained: bool): seq<Tunnel> {
    if id.Some? && id.value < |tunnels| then tunnels[id.value := Tunnel(true, tunnels[id.value].finished || drained)]
      else tunnels
  }

  function StopTunnelProcess(st: State, drained: bool): State {
    ClearTunnelState(st.(stopping := true, tunnels := CancelTunnel(st.tunnels, st.cancel, drained)))
  }

  function ResetRestartDelay(st: State): State {
    st.(backoff := 0, failures := st.failures + [Backoff.Reset])
  }

  /** The sequence used by stop_tunnel and by a disabled machine. */
  function StopForGood(st: State, drained: bool, now: int): State {
    SetTunnel(ResetRestartDelay(StopTunnelProcess(st, drained)), Stopped, now)
  }

  /** sendHeartbeat takes the pending results into its request, and does not put them back. */
  function SendHeartbeat(st: State, on: bool): State {
    if on then st.(reported := st.reported + st.pending, pending := []) else st
  }

  // ---------- Commands ----------

  datatype Kind = StartCommand | StopCommand | SyncKeys | Uninstall | UpdateAgent | Unknown

  /** A command of the hub, with what happens while it is carried out; `ok` is the result of writing the
      keys or of starting the update. */
  datatype Command = Command(id: string, kind: Kind, generation: int, attempt: Attempt, drained: bool, ok: bool)

  function Raise(st: State, generation: int): State {
    if generation > st.appliedGeneration then st.(appliedGeneration := generation) else st
  }

  function Execute(st: State, c: Command): (State, Outcome) {
    match c.kind
    case StartCommand =>
      var a := c.attempt;
      if !a.sshOk then (Raise(st, c.generation), Refused)
      else if TunnelRunning(st) then (Raise(st, c.generation), Acked)
      else if !a.transport then (Raise(st, c.generation), Refused)
      else (Raise(StartTunnel(st, a), c.generation), if a.dialOk then Acked else Refused)
    case StopCommand => (Raise(StopForGood(st, c.drained, c.attempt.now), c.generation), Acked)
    case SyncKeys => if c.ok then (Raise(st, c.generation), Acked) else (st, Refused)
    case Uninstall => (st, Acked)
    case UpdateAgent => (st, if c.ok then Acked else Refused)
    case Unknown => (st, Refused)
  }

  /** An uninstall first tells the hub, which takes the pending results along. */
  function AsExecuted(st: State, c: Command, on: bool): State {
    if c.kind.Uninstall? then SendHeartbeat(st, on) else st
  }

  function ApplyCommand(st: State, c: Command, on: bool): State {
    var r := Execute(AsExecuted(st, c, on), c);
    SendHeartbeat(r.0.(pending := r.0.pending + [CommandResult(c.id, r.1)]), on)
  }

  function ApplyCommands(st: State, commands: seq<Command>, on: bool): State {
    if commands == [] then st
    else ApplyCommand(ApplyCommands(st, commands[..|commands| - 1], on), commands[|commands| - 1], on)
  }

  // ---------- Reconciliation ----------

  /** The hub's answer, and what happens while it is followed. */
  datatype Answer =
    | NoAnswer
    | Answer(active: bool, tunnelEnabled: bool, commands: seq<Command>, attempt: Attempt, drained: bool)

  predicate WantsTunnel(ans: Answer) {
    ans.Answer? && ans.active && ans.tunnelEnabled
  }

  function Follow(st: State, ans: Answer): State
    requires ans.Answer?
  {
    if !WantsTunnel(ans) then StopForGood(st, ans.drained, ans.attempt.now)
    else if TunnelRunning(st) || !ans.attempt.sshOk || !ans.attempt.transport then st
    else StartTunnel(st, ans.attempt)
  }

  /** `on`: heartbeats are configured; without them there never is an answer. */
  function Reconcile(st: State, ans: Answer, on: bool): State {
    var asked := SendHeartbeat(st, on);
    if !on || ans.NoAnswer? then asked else Follow(ApplyCommands(asked, ans.commands, on), ans)
  }

  /** The tunnel's serve returned. */
  function TunnelEnded(st: State, cfg: Backoff.Config, failed: bool, stable: bool, ctxDone: bool, now: int): State {
    var failing := failed && !st.stopping;
    var cleared := ClearTunnelState(SetTunnel(st, if failing then Failed else Stopped, now));
    if failing && !ctxDone then
      cleared.(backoff := Backoff.NextDelay(cfg, st.backoff, stable), failures :=
        st.failures + [Backoff.Failed(stable)])
    else cleared
  }

  // ---------- Runs ----------

  /** One turn of the main loop, or a tunnel that ends by itself. */
  datatype Event =
    | Tick(answer: Answer)
    | Probe
    | Ended(failed: bool, stable: bool, ctxDone: bool, now: int, answer: Answer)
    | Finishes(id: nat)

  /** Whether the event can happen: the loop hears only of the end of the tunnel it holds. */
  predicate Possible(st: State, e: Event) {
    match e
    case Ended(_, _, _, _, _) => st.done.Some? && st.done.value < |st.tunnels| && st.tunnels[st.done.value].finished
    case Finishes(id) => id < |st.tunnels|
    case _ => true
  }

  function Step(st: State, e: Event, cfg: Backoff.Config, on: bool): State {
    match e
    case Tick(ans) => Reconcile(st, ans, on)
    case Probe => st
    case Ended(failed, stable, ctxDone, now, ans) =>
      Reconcile(TunnelEnded(st, cfg, failed, stable, ctxDone, now), ans, on)
    case Finishes(id) => if id < |st.tunnels| then st.(tunnels := st.tunnels[id := st.tunnels[id].(finished := true)])
      else st
  }

  function Run(events: seq<Event>, cfg: Backoff.Config, on: bool): State {
    if events == [] then START else Step(Run(events[..|events| - 1], cfg, on), events[|events| - 1], cfg, on)
  }

  predicate PossibleRun(events: seq<Event>, cfg: Backoff.Config, on: bool) {
    events == [] ||
    (PossibleRun(events[..|events| - 1], cfg, on) &&
     Possible(Run(events[..|events| - 1], cfg, on), events[|events| - 1]))
  }

  // ---------- One tunnel at a time ----------

  predicate Alive(t: Tunnel) {
    !t.cancelled && !t.finished
  }

  /** The daemon holds nothing, or a tunnel it has not cancelled; nothing else is alive. */
  predicate OneTunnel(st: State) {
    && st.done == st.cancel
    && (st.done.Some? ==> st.done.value < |st.tunnels| && !st.tunnels[st.done.value].cancelled)
    && (forall i | 0 <= i < |st.tunnels| :: Alive(st.tunnels[i]) ==> st.done == Some(i))
  }

  /** The reported status is right. */
  predicate StatusIsRight(st: State) {
    (st.status == Connected <==> st.done.Some?) && (st.since.Some? <==> st.done.Some?)
  }

  predicate Inv(st: State, cfg: Backoff.Config) {
    OneTunnel(st) && StatusIsRight(st) && !st.stopping && st.backoff == Backoff.Run(cfg, st.failures)
  }

  lemma StartKeepsInv(st: State, a: Attempt, cfg: Backoff.Config)
    requires Inv(st, cfg) && !TunnelRunning(st)
    ensures Inv(StartTunnel(st, a), cfg)
    ensures a.dialOk ==> StartTunnel(st, a).done == Some(|st.tunnels|)
  {}

  lemma StopWorks(st: State, drained: bool, now: int, cfg: Backoff.Config)
    requires Inv(st, cfg)
    ensures var s := StopForGood(st, drained, now);
            Inv(s, cfg) && s.done.None? && s.status == Stopped && s.backoff == 0
  {
    var h := st.failures + [Backoff.Reset];
    assert h[|h| - 1] == Backoff.Reset;
  }

  lemma ExecuteKeepsInv(st: State, c: Command, cfg: Backoff.Config)
    requires Inv(st, cfg)
    ensures Inv(Execute(st, c).0, cfg)
  {
    hide Inv, StartTunnel, StopForGood;
    RaiseKeepsInv(st, c.generation, cfg);
    if c.kind.StartCommand? && !TunnelRunning(st) {
      StartKeepsInv(st, c.attempt, cfg);
      RaiseKeepsInv(StartTunnel(st, c.attempt), c.generation, cfg);
    } else if c.kind.StopCommand? {
      StopWorks(st, c.drained, c.attempt.now, cfg);
      RaiseKeepsInv(StopForGood(st, c.drained, c.attempt.now), c.generation, cfg);
    }
  }

  lemma RaiseKeepsInv(st: State, generation: int, cfg: Backoff.Config)
    requires Inv(st, cfg)
    ensures Inv(Raise(st, generation), cfg)
  {}

  /** The state apart from the results does not matter for the invariant. */
  lemma ResultsKeepInv(st: State, pending: seq<CommandResult>, reported: seq<CommandResult>, cfg: Backoff.Config)
    ensures Inv(st, cfg) <==> Inv(st.(pending := pending, reported := reported), cfg)
  {}

  lemma ApplyKeepsInv(st: State, c: Command, on: bool, cfg: Backoff.Config)
    requires Inv(st, cfg)
    ensures Inv(ApplyCommand(st, c, on), cfg)
  {
    hide Inv, Execute;
    var before := AsExecuted(st, c, on);
    ResultsKeepInv(st, before.pending, before.reported, cfg);
    ExecuteKeepsInv(before, c, cfg);
    var r, after := Execute(before, c).0, ApplyCommand(st, c, on);
    ResultsKeepInv(r, after.pending, after.reported, cfg);
  }

  lemma {:induction false} ApplyAllKeepsInv(st: State, commands: seq<Command>, on: bool, cfg: Backoff.Config)
    requires Inv(st, cfg)
    ensures Inv(ApplyCommands(st, commands, on), cfg)
    decreases |commands|
  {
    hide Inv, ApplyCommand;
    if commands != [] {
      ApplyAllKeepsInv(st, commands[..|commands| - 1], on, cfg);
      ApplyKeepsInv(ApplyCommands(st, commands[..|commands| - 1], on), commands[|commands| - 1], on, cfg);
    }
  }

  /** A reconciliation keeps the invariant. After an answer that does not want the tunnel none is held,
      whatever commands came with it; after one that does, and finds it can be opened, one is held. */
  lemma ReconcileWorks(st: State, ans: Answer, on: bool, cfg: Backoff.Config)
    requires Inv(st, cfg)
    ensures var s := Reconcile(st, ans, on);
            && Inv(s, cfg)
            && (on && ans.Answer? && !(ans.active && ans.tunnelEnabled) ==>
                 s.done.None? && s.status == Stopped && s.backoff == 0)
            && (on && ans.Answer? && ans.active && ans.tunnelEnabled && ans.attempt.sshOk && ans.attempt.transport
                 && ans.attempt.dialOk ==>
                  s.done.Some? && s.status == Connected)
            && (!on || ans.NoAnswer? ==> s == st.(pending := s.pending, reported := s.reported))
  {
    var asked := SendHeartbeat(st, on);
    assert Inv(asked, cfg) by {
      ResultsKeepInv(st, asked.pending, asked.reported, cfg);
    }
    if on && ans.Answer? {
      hide ApplyCommands, Backoff.Run, SendHeartbeat;
      ApplyAllKeepsInv(asked, ans.commands, on, cfg);
      FollowWorks(ApplyCommands(asked, ans.commands, on), ans, cfg);
    }
  }

  lemma FollowWorks(st: State, ans: Answer, cfg: Backoff.Config)
    requires Inv(st, cfg) && ans.Answer?
    ensures var s := Follow(st, ans);
            && Inv(s, cfg)
            && (!(ans.active && ans.tunnelEnabled) ==> s.done.None? && s.status == Stopped && s.backoff == 0)
            && (ans.active && ans.tunnelEnabled && ans.attempt.sshOk && ans.attempt.transport && ans.attempt.dialOk ==>
                  s.done.Some? && s.status == Connected)
  {
    if !WantsTunnel(ans) {
      StopWorks(st, ans.drained, ans.attempt.now, cfg);
    } else if !TunnelRunning(st) {
      StartKeepsInv(st, ans.attempt, cfg);
    }
  }

  lemma EndKeepsInv(st: State, cfg: Backoff.Config, failed: bool, stable: bool, ctxDone: bool, now: int)
    requires Inv(st, cfg)
    requires st.done.Some? && st.tunnels[st.done.value].finished
    ensures Inv(TunnelEnded(st, cfg, failed, stable, ctxDone, now), cfg)
    ensures TunnelEnded(st, cfg, failed, stable, ctxDone, now).done.None?
  {
    FailureExtends(cfg, st.failures, stable);
    hide Backoff.Run, Backoff.NextDelay;
  }

  lemma FailureExtends(cfg: Backoff.Config, failures: seq<Backoff.Event>, stable: bool)
    ensures Backoff.Run(cfg, failures + [Backoff.Failed(stable)]) ==
            Backoff.NextDelay(cfg, Backoff.Run(cfg, failures), stable)
  {
    var h := failures + [Backoff.Failed(stable)];
    assert h[..|h| - 1] == failures;
    hide Backoff.NextDelay;
  }

  lemma FinishKeepsInv(st: State, id: nat, cfg: Backoff.Config)
    requires Inv(st, cfg) && id < |st.tunnels|
    ensures Inv(st.(tunnels := st.tunnels[id := st.tunnels[id].(finished := true)]), cfg)
  {}

  lemma StepKeepsInv(st: State, e: Event, cfg: Backoff.Config, on: bool)
    requires Inv(st, cfg) && Possible(st, e)
    ensures Inv(Step(st, e, cfg, on), cfg)
  {
    match e
    case Tick(ans) => ReconcileWorks(st, ans, on, cfg);
    case Probe =>
    case Ended(failed, stable, ctxDone, now, ans) =>
      EndKeepsInv(st, cfg, failed, stable, ctxDone, now);
      ReconcileWorks(TunnelEnded(st, cfg, failed, stable, ctxDone, now), ans, on, cfg);
    case Finishes(id) => FinishKeepsInv(st, id, cfg);
  }

  /** At every head of the main loop, in every run: at most one tunnel is alive, it is the one the daemon
      holds, and the status says "connected" exactly when one is held. */
  lemma {:induction false} EveryLoopHead(events: seq<Event>, cfg: Backoff.Config, on: bool)
    requires PossibleRun(events, cfg, on)
    ensures Inv(Run(events, cfg, on), cfg)
    decreases |events|
  {
    hide Step, Possible;
    if events != [] {
      EveryLoopHead(events[..|events| - 1], cfg, on);
      StepKeepsInv(Run(events[..|events| - 1], cfg, on), events[|events| - 1], cfg, on);
    } else {
      hide PossibleRun;
      assert Backoff.Run(cfg, []) == 0;
    }
  }

  /** After an answer that is not active and enabled nothing is alive, even if its commands say start. */
  lemma NothingRunsUnwanted(events: seq<Event>, cfg: Backoff.Config, ans: Answer)
    requires PossibleRun(events, cfg, true)
    requires ans.Answer? && !(ans.active && ans.tunnelEnabled)
    ensures var st := Reconcile(Run(events, cfg, true), ans, true);
            (forall i | 0 <= i < |st.tunnels| :: !Alive(st.tunnels[i])) && st.status == Stopped && st.since.None?
  {
    hide Run, PossibleRun, Reconcile;
    EveryLoopHead(events, cfg, true);
    ReconcileWorks(Run(events, cfg, true), ans, true, cfg);
  }

  /** The shutdown that ends the main loop leaves nothing alive. It does not touch the status, so that the
      last heartbeat says "connected" exactly when a tunnel was held. */
  lemma ShutdownStopsEverything(events: seq<Event>, cfg: Backoff.Config, on: bool, drained: bool)
    requires PossibleRun(events, cfg, on)
    ensures var st := Run(events, cfg, on);
            var end := StopTunnelProcess(st, drained);
            && (forall i | 0 <= i < |end.tunnels| :: !Alive(end.tunnels[i]))
            && (end.status == Connected <==> st.done.Some?)
  {
    hide Run, PossibleRun;
    EveryLoopHead(events, cfg, on);
  }

  /** The restart delay in force at any loop head is within its limits. */
  lemma DelayInRange(events: seq<Event>, cfg: Backoff.Config, on: bool)
    requires PossibleRun(events, cfg, on) && Backoff.MaxDelay(cfg) < Backoff.TWO_62
    ensures var d := Run(events, cfg, on).backoff;
            d == 0 || Backoff.MinDelay(cfg) <= d <= Backoff.MaxDelay(cfg)
  {
    hide Run, PossibleRun;
    EveryLoopHead(events, cfg, on);
    var h := Run(events, cfg, on).failures;
    Backoff.DelayDoubles(cfg, h);
    Backoff.DelaysStayInRange(cfg);
  }

  // ---------- Results and generations ----------

  function CommandsOf(ans: Answer, on: bool): seq<Command> {
    if on && ans.Answer? then ans.commands else []
  }

  /** The commands that reached the daemon, in order. */
  function Received(events: seq<Event>, on: bool): seq<Command> {
    if events == [] then []
    else
      var e := events[|events| - 1];
      Received(events[..|events| - 1], on) + (if e.Tick? || e.Ended? then CommandsOf(e.answer, on) else [])
  }

  /** The results correspond to the commands, one to one and in order. */
  predicate Answers(results: seq<CommandResult>, commands: seq<Command>) {
    |results| == |commands| && forall i | 0 <= i < |results| :: results[i].id == commands[i].id
  }

  predicate AllReported(st: State, commands: seq<Command>) {
    st.pending == [] && Answers(st.reported, commands)
  }

  lemma ApplyReports(st: State, c: Command, commands: seq<Command>)
    requires AllReported(st, commands)
    ensures AllReported(ApplyCommand(st, c, true), commands + [c])
  {
    hide Execute;
    ExecuteKeepsResults(AsExecuted(st, c, true), c);
    assert st.reported + [] == st.reported;
  }

  /** A command leaves the results of earlier commands alone. */
  lemma ExecuteKeepsResults(st: State, c: Command)
    ensures var s := Execute(st, c).0; s.pending == st.pending && s.reported == st.reported
  {
    hide StartTunnel, StopForGood;
    StepsKeepResults(st, c);
  }

  lemma StepsKeepResults(st: State, c: Command)
    ensures var s := StartTunnel(st, c.attempt);
            s.pending == st.pending && s.reported == st.reported && s.appliedGeneration == st.appliedGeneration
    ensures var s := StopForGood(st, c.drained, c.attempt.now);
            s.pending == st.pending && s.reported == st.reported && s.appliedGeneration == st.appliedGeneration
    ensures forall p: seq<CommandResult> :: [] + p == p
  {}

  lemma {:induction false} ApplyAllReports(st: State, done: seq<Command>, commands: seq<Command>)
    requires AllReported(st, done)
    ensures AllReported(ApplyCommands(st, commands, true), done + commands)
    decreases |commands|
  {
    hide ApplyCommand, AllReported;
    if commands == [] {
      assert done + commands == done;
    } else {
      var front, c := commands[..|commands| - 1], commands[|commands| - 1];
      ApplyAllReports(st, done, front);
      ApplyReports(ApplyCommands(st, front, true), c, done + front);
      assert done + front + [c] == done + commands;
    }
  }

  lemma ReconcileReports(st: State, ans: Answer, done: seq<Command>, on: bool)
    requires AllReported(st, done)
    ensures AllReported(Reconcile(st, ans, on), done + CommandsOf(ans, on))
  {
    assert st.reported + [] == st.reported;
    assert done + [] == done;
    if on && ans.Answer? {
      hide ApplyCommands;
      ApplyAllReports(st, done, ans.commands);
    }
  }

  lemma StepReports(st: State, e: Event, cfg: Backoff.Config, on: bool, done: seq<Command>)
    requires AllReported(st, done)
    ensures AllReported(Step(st, e, cfg, on), done + (if e.Tick? || e.Ended? then CommandsOf(e.answer, on) else []))
  {
    hide Reconcile;
    assert done + [] == done;
    match e
    case Tick(ans) => ReconcileReports(st, ans, done, on);
    case Ended(failed, stable, ctxDone, now, ans) =>
      ReconcileReports(TunnelEnded(st, cfg, failed, stable, ctxDone, now), ans, done, on);
    case _ =>
  }

  /** Every command that reaches the daemon is answered by exactly one result, put into exactly one
      heartbeat, in the order of the commands; at a loop head none is waiting. */
  lemma {:induction false} EveryCommandIsReported(events: seq<Event>, cfg: Backoff.Config, on: bool)
    ensures AllReported(Run(events, cfg, on), Received(events, on))
    decreases |events|
  {
    hide Step, AllReported;
    if events == [] {
      NothingReported();
    } else {
      EveryCommandIsReported(events[..|events| - 1], cfg, on);
      StepReports(Run(events[..|events| - 1], cfg, on), events[|events| - 1], cfg, on,
        Received(events[..|events| - 1], on));
    }
  }

  lemma NothingReported()
    ensures AllReported(START, [])
  {}

  /** The held tunnel has ended by itself, which the main loop has not seen yet. */
  predicate Stale(st: State) {
    st.done.Some? && st.done.value < |st.tunnels| && st.tunnels[st.done.value].finished
  }

  predicate Up(st: State) {
    st.done.Some? && st.done.value < |st.tunnels| && Alive(st.tunnels[st.done.value])
  }

  /** An acknowledged start means that a tunnel is held and shown as connected, and that it is up exactly if
      the one held before, if any, had not ended. An acknowledged stop means that it is down. */
  lemma AckMeansDone(st: State, c: Command, cfg: Backoff.Config)
    requires Inv(st, cfg)
    ensures var (after, outcome) := Execute(st, c);
            && (c.kind.StartCommand? ==>
                 (outcome == Acked <==> c.attempt.sshOk && TunnelRunning(after) && after.status == Connected)
                 && (outcome == Acked <==>
                      c.attempt.sshOk && (TunnelRunning(st) || (c.attempt.transport && c.attempt.dialOk)))
                 && (outcome == Acked ==> (Up(after) <==> !Stale(st)))
                 && (TunnelRunning(st) || !c.attempt.sshOk || !c.attempt.transport || !c.attempt.dialOk ==>
                      after.done == st.done && after.tunnels == st.tunnels))
            && (c.kind.StopCommand? ==>
                 outcome == Acked && after.done.None? && after.status == Stopped && after.backoff == 0)
            && (!c.kind.StartCommand? && !c.kind.StopCommand? ==> after.done == st.done && after.tunnels == st.tunnels)
            && (c.kind.SyncKeys? || c.kind.UpdateAgent? ==> (outcome == Acked <==> c.ok))
            && (c.kind.Uninstall? ==> outcome == Acked) && (c.kind.Unknown? ==> outcome == Refused)
  {
    if c.kind.StopCommand? {
      StopWorks(st, c.drained, c.attempt.now, cfg);
    }
  }

  /** Open a tunnel, it ends by itself, ask for a start: the answer is an acknowledgement, and nothing is
      alive. */
  lemma AStartCanBeAcknowledgedInVain(cfg: Backoff.Config)
    ensures exists events :: PossibleRun(events, cfg, true) &&
              var st := Run(events, cfg, true);
              && st.reported == [CommandResult("start", Acked)]
              && forall i | 0 <= i < |st.tunnels| :: !Alive(st.tunnels[i])
  {
    var events := AnEndUnseen(cfg);
    var a := Attempt(true, true, true, 0);
    var start := Command("start", StartCommand, 1, a, false, false);
    var e := Tick(Answer(true, true, [start], a, false));
    RunNext(events, e, cfg, true);
    hide Run, PossibleRun;
    var st := Run(events, cfg, true);
    assert st.reported + st.pending == [] && SendHeartbeat(st, true) == st;
    assert ApplyCommands(st, [], true) == st;
    assert ApplyCommands(st, [start], true) == ApplyCommand(st, start, true);
    var after := Run(events + [e], cfg, true);
    assert after.reported == [CommandResult("start", Acked)] && after.tunnels == [Tunnel(false, true)];
  }

  lemma AnEndUnseen(cfg: Backoff.Config) returns (events: seq<Event>)
    ensures PossibleRun(events, cfg, true)
    ensures var st := Run(events, cfg, true);
            && TunnelRunning(st) && st.done == Some(0) && st.tunnels == [Tunnel(false, true)]
            && st.pending == [] && st.reported == []
  {
    var e0, e1 := Tick(Answer(true, true, [], Attempt(true, true, true, 0), false)), Finishes(0);
    RunNext([], e0, cfg, true);
    RunNext([e0], e1, cfg, true);
    events := [e0] + [e1];
  }

  lemma RunNext(events: seq<Event>, e: Event, cfg: Backoff.Config, on: bool)
    ensures Run(events + [e], cfg, on) == Step(Run(events, cfg, on), e, cfg, on)
    ensures PossibleRun(events, cfg, on) && Possible(Run(events, cfg, on), e) ==> PossibleRun(events + [e], cfg, on)
  {
    assert (events + [e])[..|events|] == events;
  }

  /** What following an answer does to the tunnel, in each case. */
  lemma WhatAnAnswerDoes(st: State, ans: Answer, cfg: Backoff.Config)
    requires Inv(st, cfg) && ans.Answer?
    ensures var after, a := Follow(st, ans), ans.attempt;
            if !ans.active || !ans.tunnelEnabled then
              after.done.None? && after.status == Stopped && after.backoff == 0 && |after.tunnels| == |st.tunnels|
              && forall i | 0 <= i < |after.tunnels| :: !Alive(after.tunnels[i])
            else if st.done.Some? || !a.sshOk || !a.transport then after == st
            else if a.dialOk then
              after.done == Some(|st.tunnels|) && after.tunnels == st.tunnels + [Tunnel(false, false)]
              && after.status == Connected && after.since == Some(a.now)
            else after.done.None? && after.tunnels == st.tunnels && after.status == Failed
  {
    if !ans.active || !ans.tunnelEnabled {
      StopWorks(st, ans.drained, ans.attempt.now, cfg);
    }
  }

  /** Commands that count as applied: starts and stops in any case, a key sync if it worked. */
  predicate Applies(c: Command) {
    c.kind.StartCommand? || c.kind.StopCommand? || (c.kind.SyncKeys? && c.ok)
  }

  /** The largest generation among the applied commands, 0 if there is none. */
  function Applied(commands: seq<Command>): int {
    if commands == [] then 0
    else
      var before, c := Applied(commands[..|commands| - 1]), commands[|commands| - 1];
      if Applies(c) && c.generation > before then c.generation else before
  }

  lemma AppliedSnoc(commands: seq<Command>, c: Command)
    ensures var before := Applied(commands);
            Applied(commands + [c]) == if Applies(c) && c.generation > before then c.generation else before
  {
    assert (commands + [c])[..|commands|] == commands;
  }

  lemma ApplyGeneration(st: State, c: Command, done: seq<Command>)
    requires st.appliedGeneration == Applied(done)
    ensures ApplyCommand(st, c, true).appliedGeneration == Applied(done + [c])
  {
    hide StartTunnel, StopForGood, Applied;
    AppliedSnoc(done, c);
    StepsKeepResults(st, c);
  }

  lemma {:induction false} ApplyAllGenerations(st: State, done: seq<Command>, commands: seq<Command>)
    requires st.appliedGeneration == Applied(done)
    ensures ApplyCommands(st, commands, true).appliedGeneration == Applied(done + commands)
    decreases |commands|
  {
    hide ApplyCommand, Applied;
    if commands == [] {
      assert done + commands == done;
    } else {
      var front, c := commands[..|commands| - 1], commands[|commands| - 1];
      ApplyAllGenerations(st, done, front);
      ApplyGeneration(ApplyCommands(st, front, true), c, done + front);
      assert done + front + [c] == done + commands;
    }
  }

  lemma ReconcileGeneration(st: State, ans: Answer, done: seq<Command>, on: bool)
    requires st.appliedGeneration == Applied(done)
    ensures Reconcile(st, ans, on).appliedGeneration == Applied(done + CommandsOf(ans, on))
  {
    hide Applied, ApplyCommands;
    assert done + [] == done;
    if on && ans.Answer? {
      ApplyAllGenerations(SendHeartbeat(st, on), done, ans.commands);
    }
  }

  /** In every run the applied generation is the largest one among the applied commands received, so it
      never goes back. */
  lemma {:induction false} GenerationIsLargestApplied(events: seq<Event>, cfg: Backoff.Config, on: bool)
    ensures Run(events, cfg, on).appliedGeneration == Applied(Received(events, on))
    decreases |events|
  {
    hide Reconcile, Applied;
    if events == [] {
      NothingApplied();
    } else {
      var front, e := events[..|events| - 1], events[|events| - 1];
      var st, done := Run(front, cfg, on), Received(front, on);
      GenerationIsLargestApplied(front, cfg, on);
      assert done + [] == done;
      match e
      case Tick(ans) => ReconcileGeneration(st, ans, done, on);
      case Ended(failed, stable, ctxDone, now, ans) =>
        ReconcileGeneration(TunnelEnded(st, cfg, failed, stable, ctxDone, now), ans, done, on);
      case _ =>
    }
  }

  lemma NothingApplied()
    ensures Applied([]) == 0
  {}

  // ---------- Connected since ----------

  /** Tunnels are never forgotten, and whatever is held later is the same tunnel with the same start time,
      or one opened since. */
  predicate Continues(a: State, b: State) {
    && |a.tunnels| <= |b.tunnels|
    && (forall i | 0 <= i < |a.tunnels| :: (a.tunnels[i].cancelled ==> b.tunnels[i].cancelled)
         && (a.tunnels[i].finished ==> b.tunnels[i].finished))
    && (a.done == a.cancel ==>
          && b.done == b.cancel
          && (b.done.Some? ==> (b.done == a.done && b.since == a.since) || b.done.value >= |a.tunnels|))
  }

  lemma ContinuesTrans(a: State, b: State, c: State)
    requires Continues(a, b) && Continues(b, c)
    ensures Continues(a, c)
  {}

  lemma ExecuteContinues(st: State, c: Command)
    ensures Continues(st, Execute(st, c).0)
  {
    var started, stopped := StartTunnel(st, c.attempt), StopForGood(st, c.drained, c.attempt.now);
    ContinuesSelf(st);
    StopContinues(st, c.drained, c.attempt.now);
    RaiseContinues(st, c.generation);
    RaiseContinues(started, c.generation);
    RaiseContinues(stopped, c.generation);
    hide Continues, StartTunnel, StopForGood, Raise;
    ContinuesTrans(st, stopped, Raise(stopped, c.generation));
    if !TunnelRunning(st) {
      StartContinues(st, c.attempt);
      ContinuesTrans(st, started, Raise(started, c.generation));
    }
  }

  lemma StartContinues(st: State, a: Attempt)
    requires !TunnelRunning(st)
    ensures Continues(st, StartTunnel(st, a))
  {}

  lemma StopContinues(st: State, drained: bool, now: int)
    ensures Continues(st, StopForGood(st, drained, now))
  {}

  lemma RaiseContinues(st: State, generation: int)
    ensures Continues(st, Raise(st, generation))
  {}

  lemma {:induction false} ApplyAllContinues(st: State, commands: seq<Command>, on: bool)
    ensures Continues(st, ApplyCommands(st, commands, on))
    decreases |commands|
  {
    hide Continues, ApplyCommand;
    if commands == [] {
      ContinuesSelf(st);
    } else {
      var mid, c := ApplyCommands(st, commands[..|commands| - 1], on), commands[|commands| - 1];
      ApplyAllContinues(st, commands[..|commands| - 1], on);
      ApplyContinues(mid, c, on);
      ContinuesTrans(st, mid, ApplyCommand(mid, c, on));
    }
  }

  lemma ContinuesSelf(st: State)
    ensures Continues(st, st)
  {}

  lemma ApplyContinues(st: State, c: Command, on: bool)
    ensures Continues(st, ApplyCommand(st, c, on))
  {
    hide Execute;
    ExecuteContinues(AsExecuted(st, c, on), c);
  }

  lemma FollowContinues(st: State, ans: Answer)
    requires ans.Answer?
    ensures Continues(st, Follow(st, ans))
  {
    hide StopForGood;
    StopContinues(st, ans.drained, ans.attempt.now);
  }

  lemma ReconcileContinues(st: State, ans: Answer, on: bool)
    ensures Continues(st, Reconcile(st, ans, on))
  {
    if on && ans.Answer? {
      hide ApplyCommands;
      var asked := SendHeartbeat(st, on);
      var mid := ApplyCommands(asked, ans.commands, on);
      ApplyAllContinues(asked, ans.commands, on);
      FollowContinues(mid, ans);
      hide Follow;
      ContinuesTrans(asked, mid, Follow(mid, ans));
    }
  }

  lemma StepContinues(st: State, e: Event, cfg: Backoff.Config, on: bool)
    ensures Continues(st, Step(st, e, cfg, on))
  {
    hide Reconcile;
    match e
    case Tick(ans) => ReconcileContinues(st, ans, on);
    case Ended(failed, stable, ctxDone, now, ans) =>
      var ended := TunnelEnded(st, cfg, failed, stable, ctxDone, now);
      ReconcileContinues(ended, ans, on);
      ContinuesTrans(st, ended, Reconcile(ended, ans, on));
    case _ =>
  }

  lemma {:induction false} RunContinues(events: seq<Event>, more: seq<Event>, cfg: Backoff.Config, on: bool)
    ensures Continues(Run(events, cfg, on), Run(events + more, cfg, on))
    decreases |more|
  {
    hide Step, Continues;
    if more == [] {
      assert events + more == events;
      ContinuesSelf(Run(events, cfg, on));
    } else {
      var front, e := more[..|more| - 1], more[|more| - 1];
      RunContinues(events, front, cfg, on);
      assert (events + more)[..|events + more| - 1] == events + front;
      StepContinues(Run(events + front, cfg, on), e, cfg, on);
      ContinuesTrans(Run(events, cfg, on), Run(events + front, cfg, on), Run(events + more, cfg, on));
    }
  }

  /** As long as the same tunnel is held, the reported connected-since time stays the same. */
  lemma ConnectedSinceIsStable(events: seq<Event>, more: seq<Event>, cfg: Backoff.Config, on: bool)
    requires PossibleRun(events, cfg, on)
    ensures var a, b := Run(events, cfg, on), Run(events + more, cfg, on);
            a.done.Some? && b.done == a.done ==> b.since == a.since && a.since.Some?
  {
    hide Run, PossibleRun;
    EveryLoopHead(events, cfg, on);
    RunContinues(events, more, cfg, on);
  }
}
