/** The daemon itself: the fields of Daemon in cmd/reach-agent/main.go and the methods that update them. Each
    method does what the function of the same name in module Agent says, keeps the invariant of the main
    loop, and promises what the hub relies on; RunLoop is the main loop. */
module AgentDaemon {
  import opened Agent
  import Backoff
  import opened Options

  class Daemon {
    const cfg: Backoff.Config
    const on: bool
    var tunnelDone: Option<nat>
    var tunnelCancel: Option<nat>
    var stopping: bool
    var tunnelBackoff: Backoff.Int64
    var status: Status
    var connectedSince: Option<int>
    var appliedGeneration: int
    var pendingResults: seq<CommandResult>
    var tunnels: seq<Tunnel>
    var reported: seq<CommandResult>
    ghost var failures: seq<Backoff.Event>

    constructor (cfg: Backoff.Config, on: bool)
      ensures Value() == START && this.cfg == cfg && this.on == on && Valid()
    {
      this.cfg, this.on := cfg, on;
      tunnelDone, tunnelCancel, stopping, tunnelBackoff := None, None, false, 0;
      status, connectedSince, appliedGeneration, pendingResults := Stopped, None, 0, [];
      tunnels, reported, failures := [], [], [];
    }

    ghost function Value(): State
      reads this
    {
      State(tunnelDone, tunnelCancel, stopping, tunnelBackoff, status, connectedSince, appliedGeneration,
            pendingResults, tunnels, reported, failures)
    }

    /** At most one tunnel is alive, it is the one held, and the status says so. */
    ghost predicate Valid()
      reads this
    {
      Inv(Value(), cfg)
    }

    predicate Running()
      reads this
    {
      tunnelDone.Some? && tunnelCancel.Some?
    }

    ghost predicate NothingAlive()
      reads this
    {
      forall i | 0 <= i < |tunnels| :: !Alive(tunnels[i])
    }

    /** The connected-since time exists exactly while connected, and the first one stays. */
    method SetTunnel(state: Status, now: int)
      modifies this`status, this`connectedSince
      ensures Value() == Agent.SetTunnel(old(Value()), state, now)
      ensures status == state
      ensures connectedSince.Some? <==> status == Connected
      ensures connectedSince.Some? ==>
              connectedSince == (if old(connectedSince).Some? then old(connectedSince) else Some(now))
    {
      if state == Connected && connectedSince.None? {
        connectedSince := Some(now);
      }
      if state != Connected {
        connectedSince := None;
      }
      status := state;
    }

    /** A dial that works leaves a new tunnel, alive and held; one that fails leaves none. */
    method StartTunnel(a: Attempt) returns (ok: bool)
      requires Valid() && !Running()
      modifies this
      ensures Value() == Agent.StartTunnel(old(Value()), a) && Valid()
      ensures ok == a.dialOk == Running()
      ensures ok ==> |tunnels| == |old(tunnels)| + 1 && Alive(tunnels[|old(tunnels)|])
      ensures ok ==> tunnelDone == Some(|old(tunnels)|)
      ensures ok ==> status == Connected && connectedSince == Some(a.now)
      ensures !ok ==> status == Failed && NothingAlive()
    {
      if !a.dialOk {
        SetTunnel(Failed, a.now);
        return false;
      }
      var id := |tunnels|;
      tunnels := tunnels + [Tunnel(false, false)];
      SetTunnel(Connected, a.now);
      tunnelCancel := Some(id);
      tunnelDone := Some(id);
      stopping := false;
      return true;
    }

    method ClearTunnelState()
      modifies this`tunnelCancel, this`tunnelDone, this`stopping
      ensures Value() == Agent.ClearTunnelState(old(Value()))
    {
      tunnelCancel := None;
      tunnelDone := None;
      stopping := false;
    }

    /** Nothing is held and nothing is alive, even if the tunnel does not end in time. The status is left
        for the caller to set. */
    method StopTunnelProcess(drained: bool)
      requires Valid()
      modifies this`tunnels, this`tunnelCancel, this`tunnelDone, this`stopping
      ensures Value() == Agent.StopTunnelProcess(old(Value()), drained)
      ensures !Running() && NothingAlive() && OneTunnel(Value())
      ensures |tunnels| == |old(tunnels)|
      ensures forall i | 0 <= i < |tunnels| :: old(tunnels)[i].finished ==> tunnels[i].finished
    {
      stopping := true;
      if tunnelCancel.Some? {
        tunnels := CancelTunnel(tunnels, tunnelCancel, drained);
      }
      ClearTunnelState();
    }

    method ResetTunnelRestartDelay()
      modifies this`tunnelBackoff, this`failures
      ensures Value() == ResetRestartDelay(old(Value()))
    {
      tunnelBackoff := 0;
      failures := failures + [Backoff.Reset];
    }

    /** The delay depends on the history of failures alone. Below 2^62 ns it is the smallest delay, doubled
        for every failure in a row, up to the largest one. */
    method NextTunnelRestartDelay(stable: bool) returns (delay: Backoff.Int64)
      requires tunnelBackoff == Backoff.Run(cfg, failures)
      modifies this`tunnelBackoff, this`failures
      ensures Value() == old(Value()).(backoff := delay, failures := old(failures) + [Backoff.Failed(stable)])
      ensures delay == Backoff.Run(cfg, failures)
      ensures Backoff.MaxDelay(cfg) < Backoff.TWO_62 ==>
                var doubled := Backoff.TimesTwoToThe(Backoff.MinDelay(cfg), Backoff.Doublings(failures));
                delay == Backoff.Min(doubled, Backoff.MaxDelay(cfg)) && delay >= Backoff.MinDelay(cfg)
    {
      ghost var history := failures + [Backoff.Failed(stable)];
      assert history[..|history| - 1] == failures;
      var minDelay := cfg.restartMin;
      if minDelay <= 0 {
        minDelay := 5 * Backoff.SECOND;
      }
      var maxDelay := cfg.restartMax;
      if maxDelay < minDelay {
        maxDelay := minDelay;
      }
      if stable || tunnelBackoff <= 0 {
        tunnelBackoff := minDelay;
      } else {
        tunnelBackoff := Backoff.NextBackoff(tunnelBackoff, maxDelay);
      }
      failures := history;
      delay := tunnelBackoff;
      if Backoff.MaxDelay(cfg) < Backoff.TWO_62 {
        Backoff.DelayDoubles(cfg, history);
        Backoff.Grows(Backoff.MinDelay(cfg), Backoff.Doublings(history));
      }
    }

    /** What stop_tunnel and an answer that does not want the tunnel do. */
    method StopForGood(drained: bool, now: int)
      requires Valid()
      modifies this
      ensures Value() == Agent.StopForGood(old(Value()), drained, now) && Valid()
      ensures !Running() && NothingAlive() && status == Stopped && tunnelBackoff == 0
    {
      StopWorks(Value(), drained, now, cfg);
      StopTunnelProcess(drained);
      ResetTunnelRestartDelay();
      SetTunnel(Stopped, now);
    }

    method SendHeartbeat()
      modifies this`reported, this`pendingResults
      ensures Value() == Agent.SendHeartbeat(old(Value()), on)
      ensures reported + pendingResults == old(reported + pendingResults)
      ensures pendingResults == if on then [] else old(pendingResults)
      ensures old(Valid()) ==> Valid()
    {
      if !on {
        return;
      }
      reported := reported + pendingResults;
      pendingResults := [];
    }

    method RaiseGeneration(generation: int)
      modifies this`appliedGeneration
      ensures Value() == Raise(old(Value()), generation)
      ensures appliedGeneration >= old(appliedGeneration) && appliedGeneration >= generation
      ensures old(Valid()) ==> Valid()
    {
      if generation > appliedGeneration {
        appliedGeneration := generation;
      }
    }

    /** The switch of applyCommand, up to the result. */
    method Execute(c: Command) returns (outcome: Outcome)
      requires Valid()
      modifies this
      ensures (Value(), outcome) == Agent.Execute(AsExecuted(old(Value()), c, on), c) && Valid()
      ensures c.kind.StartCommand? ==> (outcome == Acked <==> c.attempt.sshOk && Running() && status == Connected)
                                       && (outcome == Acked ==> (Up(Value()) <==> !Stale(old(Value()))))
                                       && (outcome == Acked <==>
                                             c.attempt.sshOk &&
                                             (old(Running()) || (c.attempt.transport && c.attempt.dialOk)))
      ensures c.kind.StopCommand? ==> outcome == Acked && !Running() && NothingAlive() && status == Stopped
      ensures !c.kind.StartCommand? && !c.kind.StopCommand? ==> tunnels == old(tunnels) && tunnelDone == old(tunnelDone)
      ensures c.kind.SyncKeys? || c.kind.UpdateAgent? ==> (outcome == Acked <==> c.ok)
      ensures c.kind.Uninstall? ==> outcome == Acked
      ensures c.kind.Unknown? ==> outcome == Refused
    {
      AckMeansDone(Value(), c, cfg);
      outcome := Acked;
      match c.kind {
        case StartCommand =>
          if !c.attempt.sshOk {
            outcome := Refused;
          } else if !Running() {
            if !c.attempt.transport {
              outcome := Refused;
            } else {
              var ok := StartTunnel(c.attempt);
              if !ok {
                outcome := Refused;
              }
            }
          }
          RaiseGeneration(c.generation);
        case StopCommand =>
          StopForGood(c.drained, c.attempt.now);
          RaiseGeneration(c.generation);
        case SyncKeys =>
          if !c.ok {
            outcome := Refused;
          } else {
            RaiseGeneration(c.generation);
          }
        case Uninstall =>
          SendHeartbeat();
        case UpdateAgent =>
          if !c.ok {
            outcome := Refused;
          }
        case Unknown =>
          outcome := Refused;
      }
    }

    /** The command gets exactly one result, the last one. An acknowledged start means that a tunnel is held
        and shown as connected, and up unless it had ended already; an acknowledged stop that it is down. */
    method ApplyCommand(c: Command)
      requires Valid()
      modifies this
      ensures Value() == Agent.ApplyCommand(old(Value()), c, on) && Valid()
      ensures var results := reported + pendingResults;
              && |results| == |old(reported + pendingResults)| + 1
              && results[..|results| - 1] == old(reported + pendingResults)
              && var result := results[|results| - 1];
                 && result.id == c.id
                 && (c.kind.StartCommand? ==>
                      (result.outcome == Acked <==> c.attempt.sshOk && Running() && status == Connected)
                      && (result.outcome == Acked ==> (Up(Value()) <==> !Stale(old(Value())))))
                 && (c.kind.StopCommand? ==>
                      result.outcome == Acked && !Running() && NothingAlive() && status == Stopped)
                 && (c.kind.SyncKeys? || c.kind.UpdateAgent? ==> (result.outcome == Acked <==> c.ok))
                 && (c.kind.Uninstall? ==> result.outcome == Acked)
                 && (c.kind.Unknown? ==> result.outcome == Refused)
      ensures on ==> pendingResults == []
    {
      hide Agent.Execute, Inv, Alive, TunnelRunning;
      ExecuteKeepsResults(AsExecuted(Value(), c, on), c);
      OneMore(reported, pendingResults);
      var outcome := Execute(c);
      ResultsKeepInv(Value(), pendingResults + [CommandResult(c.id, outcome)], reported, cfg);
      pendingResults := pendingResults + [CommandResult(c.id, outcome)];
      SendHeartbeat();
    }

    /** After an answer that does not want the tunnel none is held or alive, whatever its commands; after one
        that wants it, and finds it can be opened, one is held; without an answer nothing changes. */
    method Reconcile(ans: Answer)
      requires Valid()
      modifies this
      ensures Value() == Agent.Reconcile(old(Value()), ans, on) && Valid()
      ensures on && ans.Answer? && !(ans.active && ans.tunnelEnabled) ==>
              !Running() && NothingAlive() && status == Stopped && tunnelBackoff == 0
      ensures on && ans.Answer? && ans.active && ans.tunnelEnabled && ans.attempt.sshOk && ans.attempt.transport
              && ans.attempt.dialOk ==>
                Running() && status == Connected
      ensures !on || ans.NoAnswer? ==> tunnels == old(tunnels) && tunnelDone == old(tunnelDone) && status == old(status)
    {
      ReconcileWorks(Value(), ans, on, cfg);
      SendHeartbeat();
      if !on || ans.NoAnswer? {
        return;
      }
      ApplyAll(ans.commands);
      if ans.active && ans.tunnelEnabled {
        if Running() {
          return;
        }
        if !ans.attempt.sshOk || !ans.attempt.transport {
          return;
        }
        var _ := StartTunnel(ans.attempt);
      } else {
        StopForGood(ans.drained, ans.attempt.now);
      }
    }

    /** The loop over the commands of an answer. */
    method ApplyAll(commands: seq<Command>)
      requires Valid()
      modifies this
      ensures Value() == ApplyCommands(old(Value()), commands, on) && Valid()
    {
      for i := 0 to |commands|
        invariant Value() == ApplyCommands(old(Value()), commands[..i], on) && Valid()
      {
        assert commands[..i + 1][..i] == commands[..i];
        ApplyCommand(commands[i]);
      }
      assert commands[..|commands|] == commands;
    }

    /** The branch of the main loop for a tunnel that ended, up to the reconciliation. */
    method HandleTunnelEnd(failed: bool, stable: bool, ctxDone: bool, now: int)
      requires Valid() && tunnelDone.Some? && tunnels[tunnelDone.value].finished
      modifies this
      ensures Value() == TunnelEnded(old(Value()), cfg, failed, stable, ctxDone, now) && Valid()
      ensures !Running() && NothingAlive() && tunnels == old(tunnels)
      ensures status == if failed then Failed else Stopped
      ensures failed && !ctxDone ==> failures == old(failures) + [Backoff.Failed(stable)]
      ensures !(failed && !ctxDone) ==> tunnelBackoff == old(tunnelBackoff)
    {
      EndKeepsInv(Value(), cfg, failed, stable, ctxDone, now);
      var wasStopping := stopping;
      if failed && !wasStopping {
        SetTunnel(Failed, now);
      } else {
        SetTunnel(Stopped, now);
      }
      ClearTunnelState();
      if failed && !wasStopping && !ctxDone {
        var _ := NextTunnelRestartDelay(stable);
      }
    }

    /** One turn of the main loop, or a tunnel that ends by itself between two turns. */
    method Turn(e: Event)
      requires Valid() && Possible(Value(), e)
      modifies this
      ensures Value() == Step(old(Value()), e, cfg, on) && Valid()
    {
      StepKeepsInv(Value(), e, cfg, on);
      match e {
        case Tick(ans) =>
          Reconcile(ans);
        case Probe =>
        case Ended(failed, stable, ctxDone, now, ans) =>
          HandleTunnelEnd(failed, stable, ctxDone, now);
          Reconcile(ans);
        case Finishes(id) =>
          tunnels := tunnels[id := tunnels[id].(finished := true)];
      }
    }

    /** Turn after turn. */
    method Turns(ghost past: seq<Event>, events: seq<Event>)
      requires Valid() && Value() == Agent.Run(past, cfg, on) && PossibleRun(past + events, cfg, on)
      modifies this
      ensures Value() == Agent.Run(past + events, cfg, on) && Valid()
    {
      hide Step, Possible, Inv, Agent.Run, PossibleRun;
      ghost var all := past + events;
      assert all[..|past|] == past;
      for i := 0 to |events|
        invariant Value() == Agent.Run(all[..|past| + i], cfg, on) && Valid()
      {
        TurnPossible(all, |past| + i, cfg, on);
        assert all[|past| + i] == events[i];
        Turn(events[i]);
      }
      assert all[..|all|] == all;
    }

    /** Run: a first reconciliation, turns until the context is done, then the shutdown. At the end nothing
        is alive and every result has been put into a heartbeat. */
    method RunLoop(first: Answer, events: seq<Event>, drained: bool)
      requires Value() == START && PossibleRun([Tick(first)] + events, cfg, on)
      modifies this
      ensures var end := Agent.Run([Tick(first)] + events, cfg, on);
              Value() == Agent.SendHeartbeat(Agent.StopTunnelProcess(end, drained), on)
      ensures !Running() && NothingAlive()
      ensures pendingResults == [] && Answers(reported, Received([Tick(first)] + events, on))
    {
      FirstTurn(first, cfg, on);
      Reconcile(first);
      Turns([Tick(first)], events);
      EveryCommandIsReported([Tick(first)] + events, cfg, on);
      hide Agent.Run, PossibleRun, Received, Answers, Inv;
      StopTunnelProcess(drained);
      SendHeartbeat();
      assert reported + [] == reported;
    }
  }

  lemma OneMore(reported: seq<CommandResult>, pending: seq<CommandResult>)
    ensures forall r: CommandResult ::
              var all := (reported + pending) + [r];
              all == reported + (pending + [r]) && all[..|all| - 1] == reported + pending
    ensures forall r: CommandResult :: ((reported + pending) + ([] + [r])) + [] == (reported + pending) + [r]
  {}

  lemma TurnPossible(events: seq<Event>, n: nat, cfg: Backoff.Config, on: bool)
    requires n < |events| && PossibleRun(events, cfg, on)
    ensures var st := Run(events[..n], cfg, on);
            Possible(st, events[n]) && Run(events[..n + 1], cfg, on) == Step(st, events[n], cfg, on)
  {
    hide Step, Possible;
    PossiblePrefix(events, n + 1, cfg, on);
    assert events[..n + 1][..n] == events[..n];
  }

  lemma FirstTurn(first: Answer, cfg: Backoff.Config, on: bool)
    ensures Run([Tick(first)], cfg, on) == Reconcile(START, first, on) && Inv(START, cfg)
  {
    hide Reconcile;
    assert [Tick(first)][..0] == [];
  }

  lemma {:induction false} PossiblePrefix(events: seq<Event>, n: nat, cfg: Backoff.Config, on: bool)
    requires n <= |events| && PossibleRun(events, cfg, on)
    ensures PossibleRun(events[..n], cfg, on)
    decreases |events|
  {
    if n == |events| {
      assert events[..n] == events;
    } else {
      PossiblePrefix(events[..|events| - 1], n, cfg, on);
      assert events[..|events| - 1][..n] == events[..n];
    }
  }
}
