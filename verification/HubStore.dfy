/** The hub's tables as the handlers change them. Each method is proved to do to the tables what the
    functions of Hub say, and each handler to keep the invariant and everything that lasts. */
module HubStore {
  import opened Hub
  import opened HubInvariants
  import opened Options
  import opened Slug

  class Store {
    const hubs: map<Id, HubRow>
    var machines: map<Id, Machine>
    var tunnels: map<Id, Tunnel>
    var commands: seq<Command>

    ghost function Value(): Db
      reads this
    {
      Db(hubs, machines, tunnels, commands)
    }

    constructor (hubs: map<Id, HubRow>)
      ensures Value() == Db(hubs, map[], map[], [])
      ensures (forall h | h in hubs :: hubs[h].portStart > 0) ==> Inv(Value())
    {
      this.hubs := hubs;
      machines, tunnels, commands := map[], map[], [];
    }

    /** allocatePortTx: the least port of the range that no row of the query has, that is not reserved and
        that nothing listens on; None only if there is no such port. */
    method AllocatePort(hub: Id, listening: set<int>) returns (port: Option<int>)
      requires hub in hubs
      ensures port == LeastUsable(Value(), hub, listening, hubs[hub].portStart, hubs[hub].portEnd)
      ensures port.Some? ==> Usable(Value(), hub, listening, port.value)
      ensures port.None? ==>
              forall p | hubs[hub].portStart <= p <= hubs[hub].portEnd :: !Usable(Value(), hub, listening, p)
      ensures port.Some? ==> Grantable(Value(), hub, listening, port.value)
      ensures port.None? <==>
              forall p | hubs[hub].portStart <= p <= hubs[hub].portEnd :: !Grantable(Value(), hub, listening, p)
    {
      var lo, hi := hubs[hub].portStart, hubs[hub].portEnd;
      FirstGrantablePort(Value(), hub, listening, lo, hi);
      var used := set t | t in tunnels && tunnels[t].hub == hub && tunnels[t].status != TRetired
        && lo <= tunnels[t].port <= hi :: tunnels[t].port;
      var p := lo;
      while p <= hi
        invariant lo <= p
        invariant LeastUsable(Value(), hub, listening, lo, hi) == LeastUsable(Value(), hub, listening, p, hi)
        decreases hi - p
      {
        assert p in used <==> Used(Value(), hub, p);
        if p in used || ReservedPort(p) || p in listening {
          p := p + 1;
        } else {
          return Some(p);
        }
      }
      port := None;
    }

    method CreateMachine(x: NewMachine) returns (err: Option<CreateError>)
      modifies this
      ensures (Value(), err) == Hub.CreateMachine(old(Value()), x)
      ensures err.None? || err == Some(AccountFailed) ==>
                && x.machine in machines && x.tunnel in tunnels && (err.None? <==> x.accountOk)
                && machines.Keys == old(machines).Keys + {x.machine} && tunnels.Keys == old(tunnels).Keys + {x.tunnel}
                && (forall m | m in old(machines) :: m != x.machine && machines[m] == old(machines)[m])
                && (forall t | t in old(tunnels) :: t != x.tunnel && tunnels[t] == old(tunnels)[t])
      ensures err.None? ==>
                && machines[x.machine] == Machine(x.slug, x.slug, Seen(Offline), Active, Offline, 1)
                && tunnels[x.tunnel].machine == x.machine && tunnels[x.tunnel].status == TOffline
      ensures err == Some(AccountFailed) ==>
                && machines[x.machine] == Machine(x.slug, x.slug, Failed, Active, Unknown, 1)
                && tunnels[x.tunnel].machine == x.machine && tunnels[x.tunnel].status == TFailed
      ensures err.Some? && err != Some(AccountFailed) ==> Value() == old(Value())
      ensures Kept(old(Value()), Value())
    {
      hide Kept, CreateRows, Hub.FinishCreate;
      err := InsertRows(x);
      if err.Some? {
        return;
      }
      ghost var created := Value();
      FinishCreate(x.machine, x.tunnel, x.accountOk);
      KeptTrans(old(Value()), created, Value());
      err := if x.accountOk then None else Some(AccountFailed);
    }

    /** The transaction. */
    method InsertRows(x: NewMachine) returns (err: Option<CreateError>)
      modifies this
      ensures (Value(), err) == CreateRows(old(Value()), x)
      ensures err.Some? ==> Value() == old(Value()) && err != Some(AccountFailed)
      ensures err == Some(BadSlug) <==> !ValidSlug(x.slug)
      ensures err == Some(NoHub) <==> ValidSlug(x.slug) && x.hub !in hubs
      ensures err == Some(NoPort) <==>
                && ValidSlug(x.slug) && x.hub in hubs
                && forall p | hubs[x.hub].portStart <= p <= hubs[x.hub].portEnd ::
                     !Grantable(old(Value()), x.hub, x.listening, p)
      ensures err == Some(Conflict) ==>
                || x.machine in machines || x.tunnel in tunnels
                  || (exists m :: m in machines && machines[m].slug == x.slug)
                || exists t :: t in tunnels && tunnels[t].hub == x.hub
                                && (tunnels[t].user == "rt-" + x.short
                                    || (tunnels[t].status == TRetired
                                        && hubs[x.hub].portStart <= tunnels[t].port <= hubs[x.hub].portEnd))
      ensures err.None? ==>
                && x.machine !in old(machines) && x.tunnel !in old(tunnels) && x.tunnel in tunnels
                && machines == old(machines)[x.machine := Machine(x.slug, x.slug, Provisioning, Active, Unknown, 1)]
                && var port, user := tunnels[x.tunnel].port, "rt-" + x.short;
                   tunnels == old(tunnels)[x.tunnel :=
                     Tunnel(x.machine, x.hub, user, Some(user), port, Some(port), TOffline)]
      ensures err.None? ==>
                && (forall m | m in old(machines) :: old(machines)[m].slug != x.slug)
                && (forall t | t in old(tunnels) && old(tunnels)[t].hub == x.hub ::
                      old(tunnels)[t].port != tunnels[x.tunnel].port && old(tunnels)[t].user != "rt-" + x.short)
      ensures commands == old(commands)
      ensures Kept(old(Value()), Value())
    {
      CreateKept(Value(), x);
      hide Kept;
      if !ValidSlug(x.slug) {
        return Some(BadSlug);
      }
      if x.hub !in hubs {
        return Some(NoHub);
      }
      var port := AllocatePort(x.hub, x.listening);
      if port.None? {
        return Some(NoPort);
      }
      var conflict := CheckUnique(x, port.value);
      if conflict {
        return Some(Conflict);
      }
      var user := LIVE_PREFIX + x.short;
      machines := machines[x.machine := Machine(x.slug, x.slug, Provisioning, Active, Unknown, 1)];
      tunnels := tunnels[x.tunnel :=
        Tunnel(x.machine, x.hub, user, Some(user), port.value, Some(port.value), TOffline)];
      err := None;
    }

    /** What follows the transaction and the system account: markProvisionFailed or the last UPDATE. */
    method FinishCreate(machine: Id, tunnel: Id, accountOk: bool)
      modifies this`machines, this`tunnels
      ensures Value() == Hub.FinishCreate(old(Value()), machine, tunnel, accountOk)
      ensures machines.Keys == old(machines).Keys && tunnels.Keys == old(tunnels).Keys
      ensures machine in machines ==>
                var m := old(machines)[machine];
                machines[machine] == if accountOk then m.(shown := Seen(Offline), observed := Offline)
                                     else m.(shown := Failed)
      ensures tunnel in tunnels && !accountOk ==> tunnels[tunnel] == old(tunnels)[tunnel].(status := TFailed)
      ensures forall m | m in machines && m != machine :: machines[m] == old(machines)[m]
      ensures forall t | t in tunnels && (t != tunnel || accountOk) :: tunnels[t] == old(tunnels)[t]
      ensures Kept(old(Value()), Value())
    {
      FinishKept(Value(), machine, tunnel, accountOk);
      hide Kept;
      if machine in machines {
        var m := machines[machine];
        machines := machines[machine :=
          if accountOk then m.(shown := Seen(Offline), observed := Offline) else m.(shown := Failed)];
      }
      if !accountOk && tunnel in tunnels {
        tunnels := tunnels[tunnel := tunnels[tunnel].(status := TFailed)];
      }
    }

    /** Whether one of the two INSERTs of CreateMachine breaks a key. */
    method CheckUnique(x: NewMachine, port: int) returns (conflict: bool)
      ensures conflict == (x.machine in machines || SlugTaken(Value(), x.slug, x.machine) || x.tunnel in tunnels ||
                           PortTaken(Value(), x.hub, port, x.tunnel)
                             || UserTaken(Value(), x.hub, LIVE_PREFIX + x.short, x.tunnel))
    {
      var slugs := exists m :: m in machines && m != x.machine && machines[m].slug == x.slug;
      var rows := exists t :: t in tunnels && t != x.tunnel && tunnels[t].hub == x.hub &&
                              (tunnels[t].port == port || tunnels[t].user == LIVE_PREFIX + x.short);
      conflict := x.machine in machines || slugs || x.tunnel in tunnels || rows;
    }

    /** SELECT MIN(remote_port) ... AND remote_port<0, then one less, or -1. */
    method NextRetired(hub: Id) returns (port: int)
      ensures port == NextRetiredPort(Value(), hub) < 0
      ensures forall t | t in tunnels && tunnels[t].hub == hub && tunnels[t].port < 0 :: port < tunnels[t].port
      ensures port == -1 || exists t :: t in tunnels && tunnels[t].hub == hub && tunnels[t].port == port + 1
    {
      var min := 0;
      var rows := tunnels.Keys;
      while rows != {}
        invariant rows <= tunnels.Keys
        invariant min <= 0 && (min < 0 ==> min in NegativePorts(Value(), hub))
        invariant forall t | t in tunnels && t !in rows && tunnels[t].hub == hub && tunnels[t].port < 0 ::
                  min <= tunnels[t].port
        decreases |rows|
      {
        var t :| t in rows;
        if tunnels[t].hub == hub && tunnels[t].port < min {
          min := tunnels[t].port;
        }
        rows := rows - {t};
      }
      LeastIs(NegativePorts(Value(), hub), min);
      port := min - 1;
    }

    method RetireTunnelRow(id: Id) returns (ok: bool)
      requires id in tunnels
      modifies this`tunnels
      ensures (Value(), ok) == RetireRow(old(Value()), id)
      ensures !ok ==> tunnels == old(tunnels)
      ensures ok ==>
                && id in tunnels
                && var t, t' := old(tunnels)[id], tunnels[id];
                   && tunnels == old(tunnels)[id := t'] && t'.status == TRetired
                   && t'.user == (if "retired-" <= t.user then t.user else "retired-" + id)
                   && (t.port <= 0 ==> t'.port == t.port) && t'.port <= 0
                   && t'.originalUser == (if t.originalUser.Some? then t.originalUser else Some(t.user))
                   && t'.originalPort == (if t.originalPort.Some? then t.originalPort else Some(t.port))
                   && t'.machine == t.machine && t'.hub == t.hub
    {
      var t := tunnels[id];
      var port := t.port;
      if port > 0 {
        port := NextRetired(t.hub);
      }
      var t' := t.(status := TRetired, user := RetiredUser(id, t.user), port := port,
                   originalUser := OrElse(t.originalUser, t.user), originalPort := OrElse(t.originalPort, t.port));
      ok := Update(id, t');
    }

    /** An UPDATE of one tunnel row under the UNIQUE constraints. */
    method Update(id: Id, t: Tunnel) returns (ok: bool)
      requires id in tunnels
      modifies this`tunnels
      ensures (Value(), ok) == UpdateTunnel(old(Value()), id, t)
    {
      var clash := exists u ::
        u in tunnels && u != id && tunnels[u].hub == t.hub && (tunnels[u].port == t.port || tunnels[u].user == t.user);
      assert clash == (PortTaken(Value(), t.hub, t.port, id) || UserTaken(Value(), t.hub, t.user, id));
      if !clash {
        tunnels := tunnels[id := t];
      }
      ok := !clash;
    }

    method RetiredSlug(id: Id, original: string, draws: seq<string>, fold: string -> string)
        returns (slug: Option<string>)
      ensures slug == PickRetiredSlug(Value(), id, original, draws, fold)
    {
      var i := 0;
      while i < |draws|
        invariant 0 <= i <= |draws|
        invariant PickRetiredSlug(Value(), id, original, draws, fold) ==
                  PickRetiredSlug(Value(), id, original, draws[i..], fold)
      {
        var candidate := RetiredCandidate(original, draws[i], fold);
        var taken := exists m :: m in machines && m != id && machines[m].slug == candidate;
        assert taken == SlugTaken(Value(), candidate, id);
        if !taken {
          return Some(candidate);
        }
        assert draws[i..][1..] == draws[i + 1..];
        i := i + 1;
      }
      slug := None;
    }

    method QueueCommand(id: Id, generation: nat, kind: CommandType)
      modifies this`commands
      ensures Value() == Enqueue(old(Value()), id, generation, [kind])
    {
      commands := commands + [Command(id, generation, kind)];
    }

    method SetDesiredState(id: Id, desired: Desired, rows: seq<Id>, draws: seq<string>, saved: bool,
        fold: string -> string)
        returns (ok: bool)
      requires RowsOf(Value(), id, rows) && Draws(draws)
      modifies this
      ensures (Value(), ok) == SetDesired(old(Value()), id, desired, rows, draws, saved, fold)
      ensures Kept(old(Value()), Value())
      ensures desired != Retired ==> (ok <==> id in old(machines))
      ensures !ok && desired != Retired ==> Value() == old(Value())
      ensures ok ==> id in old(machines) && id in machines && machines[id].desired == desired
      ensures ok && desired != Retired ==>
                var m := old(machines)[id];
                machines == old(machines)[id := m.(desired := desired, generation := m.generation + 1, shown :=
                  if desired != Active then Wanted(desired)
                  else if m.observed == Online then Seen(Online) else Seen(Offline))]
      ensures ok && desired == Retired ==>
                && machines == old(machines)[id := old(machines)[id].(slug := machines[id].slug, desired := Retired,
                     generation := old(machines)[id].generation + 1, shown := Wanted(Retired))]
                && (forall m | m in machines && m != id :: machines[m].slug != machines[id].slug)
                && exists short ::
                     short in draws && machines[id].slug ==
                       RetiredCandidate(old(machines)[id].originalSlug, short, fold)
      ensures ok && desired != Retired ==> tunnels.Keys == old(tunnels).Keys
      ensures ok && desired != Retired ==>
                forall t | t in tunnels ::
                  var was := old(tunnels)[t];
                  tunnels[t] == if was.machine != id then was
                                else if desired != Active then was.(status := TDisabled)
                                else if was.status == TDisabled then was.(status := TOffline) else was
      ensures ok ==>
                var g := machines[id].generation;
                commands == old(commands) +
                  match desired
                  case Active => [Command(id, g, SyncKeys), Command(id, g, StartTunnel)]
                  case Disabled => [Command(id, g, StopTunnel), Command(id, g, SyncKeys)]
                  case Retiring => [Command(id, g, Uninstall)]
                  case Retired => []
    {
      hide Kept, SetDesired;
      SetDesiredKept(Value(), id, desired, rows, draws, saved, fold);
      NoMachineIs(Value(), id, desired, rows, draws, saved, fold);
      if id !in machines {
        return false;
      }
      if desired == Retired {
        ok := Retire(id, rows, draws, saved, fold);
        return;
      }
      SwitchIs(Value(), id, desired, rows, draws, saved, fold);
      SwitchRows(id, desired);
      var gen := machines[id].generation;
      ghost var db := Value();
      if desired == Active {
        QueueCommand(id, gen, SyncKeys);
        QueueCommand(id, gen, StartTunnel);
        EnqueueTwo(db, id, gen, SyncKeys, StartTunnel);
      } else if desired == Disabled {
        QueueCommand(id, gen, StopTunnel);
        QueueCommand(id, gen, SyncKeys);
        EnqueueTwo(db, id, gen, StopTunnel, SyncKeys);
      } else {
        QueueCommand(id, gen, Uninstall);
      }
      ok := true;
    }

    /** The two UPDATEs of the branches for active, disabled and retiring. */
    method SwitchRows(id: Id, desired: Desired)
      requires id in machines && desired != Retired
      modifies this`machines, this`tunnels
      ensures var m := SwitchMachine(old(machines)[id], desired);
              Value() == MapTunnels(SetMachine(old(Value()), id, m), id, SwitchTunnel(desired)) && id in machines
                && machines[id] == m
    {
      var m := machines[id];
      var shown := Wanted(desired);
      if desired == Active {
        shown := if m.observed == Online then Seen(Online) else Seen(Offline);
      }
      machines := machines[id := m.(desired := desired, generation := m.generation + 1, shown := shown)];
      tunnels := map t | t in tunnels ::
        if tunnels[t].machine != id then tunnels[t]
        else if desired != Active then tunnels[t].(status := TDisabled)
        else if tunnels[t].status == TDisabled then tunnels[t].(status := TOffline)
        else tunnels[t];
      assert tunnels == MapTunnels(SetMachine(old(Value()), id, machines[id]), id, SwitchTunnel(desired)).tunnels;
    }

    /** The retired branch of SetDesiredState: tunnels first, then a slug, then the machine, unless that
        last UPDATE fails. */
    method Retire(id: Id, rows: seq<Id>, draws: seq<string>, saved: bool, fold: string -> string) returns (ok: bool)
      requires id in machines
      modifies this`tunnels, this`machines
      ensures ok ==>
                && id in machines
                && machines == old(machines)[id := old(machines)[id].(slug := machines[id].slug, desired := Retired,
                     generation := old(machines)[id].generation + 1, shown := Wanted(Retired))]
      ensures ok ==>
                && (forall m | m in machines && m != id :: machines[m].slug != machines[id].slug)
                && exists short ::
                     short in draws && machines[id].slug ==
                       RetiredCandidate(old(machines)[id].originalSlug, short, fold)
      ensures !ok ==> machines == old(machines)
      ensures (Value(), ok) == SetDesired(old(Value()), id, Retired, rows, draws, saved, fold)
    {
      hide SetDesired, RetireRow, PickRetiredSlug;
      RetireIs(Value(), id, rows, draws, saved, fold);
      var m := machines[id];
      RetireAll(rows);
      var slug := RetiredSlug(id, m.originalSlug, draws, fold);
      if slug.None? || !saved {
        return false;
      }
      machines := machines[id :=
        m.(slug := slug.value, desired := Retired, generation := m.generation + 1, shown := Wanted(Retired))];
      ok := true;
    }

    /** The loop over the machine's tunnels; the error of a refused row is dropped. */
    method RetireAll(rows: seq<Id>)
      modifies this`tunnels
      ensures Value() == RetireRows(old(Value()), rows)
    {
      hide RetireRow;
      var i := 0;
      while i < |rows|
        invariant 0 <= i <= |rows|
        invariant Value() == RetireRows(old(Value()), rows[..i])
      {
        assert rows[..i + 1][..i] == rows[..i];
        if rows[i] in tunnels {
          var _ := RetireTunnelRow(rows[i]);
        }
        i := i + 1;
      }
      assert rows[..i] == rows;
    }

    method RecomputeObserved(id: Id, view: View)
      modifies this`machines
      ensures id !in old(machines) ==> machines == old(machines)
      ensures id in old(machines) ==>
                var m0 := old(machines)[id];
                && Value() == WriteObserved(old(Value()), id, m0.desired, ComputeObserved(view))
                && id in machines && machines[id] == m0.(observed := machines[id].observed, shown := machines[id].shown)
                && machines[id].shown ==
                     (if m0.desired == Active then Seen(machines[id].observed) else Wanted(m0.desired))
                && ObservedFits(view, machines[id].observed)
      ensures Kept(old(Value()), Value()) && (old(StatusAgrees(Value())) ==> StatusAgrees(Value()))
    {
      if id in machines {
        WriteKept(Value(), id, machines[id].desired, ComputeObserved(view));
      }
      KeptItself(Value());
      hide Kept;
      if id !in machines {
        return;
      }
      var desired := machines[id].desired;
      var observed := Unknown;
      if view.heartbeat {
        if view.stale && view.reachable {
          observed := Degraded;
        } else if view.stale && view.unreachable {
          observed := Gone;
        } else if view.stale {
          observed := Offline;
        } else if view.agentConnected && view.reachable && view.sshHealthy {
          observed := Online;
        } else if view.agentConnected || view.reachable {
          observed := Degraded;
        } else {
          observed := Offline;
        }
      } else if view.reachable {
        observed := Degraded;
      }
      var effective := Seen(observed);
      if desired == Disabled || desired == Retiring || desired == Retired {
        effective := Wanted(desired);
      }
      machines := machines[id := machines[id].(observed := observed, shown := effective)];
    }

    /** One round of RunHealthCheck's loop, for a tunnel its query returned. */
    method ProbeTunnel(id: Id, ok: bool)
      modifies this`tunnels
      ensures Value() == Probe(old(Value()), id, ok)
      ensures Kept(old(Value()), Value()) && DownUntouched(old(Value()), Value())
      ensures forall m :: old(DisabledIsDown(Value(), m)) ==> DisabledIsDown(Value(), m)
      ensures forall t | t in tunnels ::
                t in old(tunnels) && tunnels[t] == old(tunnels)[t].(status := tunnels[t].status)
      ensures forall t | t in tunnels && t != id :: tunnels[t] == old(tunnels)[t]
      ensures id in tunnels ==>
                var was := old(tunnels)[id].status;
                tunnels[id].status == if was == TDisabled || was == TRetired || was == TFailed then was
                                      else if ok then TOnline else TOffline
    {
      ProbeKept(Value(), id, ok);
      ProbeLeavesDown(Value(), id, ok);
      ProbeLeavesDisabled(Value(), id, ok);
      hide Kept, DownUntouched, DisabledIsDown;
      if id in tunnels {
        var t := tunnels[id];
        if t.status != TDisabled && t.status != TRetired && t.status != TFailed {
          tunnels := tunnels[id := t.(status := if ok then TOnline else TOffline)];
        } else {
          assert tunnels[id := t] == tunnels;
        }
      }
    }

    method HeartbeatTunnels(id: Id)
      modifies this`tunnels
      ensures Value() == Heartbeat(old(Value()), id)
      ensures Kept(old(Value()), Value()) && DownUntouched(old(Value()), Value())
      ensures forall m :: old(DisabledIsDown(Value(), m)) ==> DisabledIsDown(Value(), m)
      ensures forall t | t in tunnels ::
                t in old(tunnels) && tunnels[t] == old(tunnels)[t].(status := tunnels[t].status)
      ensures forall t | t in tunnels && tunnels[t].machine != id :: tunnels[t] == old(tunnels)[t]
      ensures forall t | t in tunnels && tunnels[t].machine == id ::
                var was := old(tunnels)[t].status;
                tunnels[t].status == if was == TDisabled || was == TRetired || was == TFailed then was else TOnline
    {
      HeartbeatKept(Value(), id);
      HeartbeatLeavesDown(Value(), id);
      HeartbeatLeavesDisabled(Value(), id);
      hide Kept, DownUntouched, DisabledIsDown;
      tunnels := map t | t in tunnels ::
        if tunnels[t].machine == id && !Down(tunnels[t].status) then tunnels[t].(status := TOnline) else tunnels[t];
    }

    /** db.go: the two COALESCE statements, then one UPDATE per retired row until one is refused. */
    method ReleaseRetiredTunnels(rows: seq<Id>) returns (ok: bool)
      requires RetiredRows(Value(), rows)
      modifies this`tunnels
      ensures (Value(), ok) == ReleaseRetired(old(Value()), rows)
      ensures Kept(old(Value()), Value())
    {
      ReleaseKept(Value(), rows);
      hide Kept, ReleaseRows;
      tunnels := map t | t in tunnels ::
        tunnels[t].(originalUser := OrElse(tunnels[t].originalUser, tunnels[t].user),
                    originalPort := OrElse(tunnels[t].originalPort, tunnels[t].port));
      assert Value().tunnels == FillOriginals(old(Value())).tunnels;
      ok := ReleaseAll(rows);
    }

    method ReleaseAll(rows: seq<Id>) returns (ok: bool)
      modifies this`tunnels
      ensures (Value(), ok) == ReleaseRows(old(Value()), rows)
    {
      hide ReleaseRow;
      ok := true;
      var i := 0;
      while i < |rows| && ok
        invariant 0 <= i <= |rows|
        invariant (Value(), ok) == ReleaseRows(old(Value()), rows[..i])
      {
        assert rows[..i + 1][..i] == rows[..i];
        if rows[i] in tunnels {
          ok := ReleaseTunnelRow(rows[i]);
        }
        i := i + 1;
      }
      assert i == |rows| ==> rows[..i] == rows;
      ReleaseStops(old(Value()), rows, i);
    }

    method ReleaseTunnelRow(id: Id) returns (ok: bool)
      requires id in tunnels
      modifies this`tunnels
      ensures (Value(), ok) == ReleaseRow(old(Value()), id)
    {
      var t := tunnels[id];
      var user := RetiredUser(id, t.user);
      var port := t.port;
      if port > 0 {
        port := NextRetired(t.hub);
      }
      ok := true;
      if user != t.user || port != t.port {
        ok := Update(id, t.(user := user, port := port));
      }
    }
  }

  /** When each observed state is shown. */
  predicate ObservedFits(v: View, observed: Observed) {
    var current := v.heartbeat && !v.stale;
    var whole := current && v.agentConnected && v.sshHealthy && v.reachable;
    && (observed == Online <==> whole)
    && (observed == Degraded <==> !whole && (v.reachable || (current && v.agentConnected)))
    && (observed == Gone <==> v.heartbeat && v.stale && !v.reachable && v.unreachable)
    && (observed == Unknown <==> !v.heartbeat && !v.reachable)
  }

  lemma KeptItself(db: Db)
    ensures Kept(db, db)
  {
    SameFollows(db);
  }

  lemma ProbeLeavesDisabled(db: Db, t: Id, ok: bool)
    ensures forall m :: DisabledIsDown(db, m) ==> DisabledIsDown(Probe(db, t, ok), m)
  {}

  lemma HeartbeatLeavesDisabled(db: Db, id: Id)
    ensures forall m :: DisabledIsDown(db, m) ==> DisabledIsDown(Heartbeat(db, id), m)
  {}

  lemma NoMachineIs(db: Db, id: Id, desired: Desired, rows: seq<Id>, draws: seq<string>, saved: bool,
      fold: string -> string)
    ensures id !in db.machines ==> SetDesired(db, id, desired, rows, draws, saved, fold) == (db, false)
  {}

  lemma EnqueueTwo(db: Db, id: Id, generation: nat, a: CommandType, b: CommandType)
    ensures Enqueue(Enqueue(db, id, generation, [a]), id, generation, [b]) == Enqueue(db, id, generation, [a, b])
  {
    var one := Enqueue(Enqueue(db, id, generation, [a]), id, generation, [b]);
    assert one.commands == db.commands + [Command(id, generation, a)] + [Command(id, generation, b)];
    assert Enqueue(db, id, generation, [a, b]).commands ==
           db.commands + [Command(id, generation, a), Command(id, generation, b)];
  }

  lemma LeastIs(s: set<int>, min: int)
    requires forall x | x in s :: min <= x < 0
    requires min == 0 || min in s
    ensures Least(s) == min
  {
    if s != {} {
      HasMember(s);
    }
  }

  lemma {:induction false} ReleaseStops(db: Db, rows: seq<Id>, i: nat)
    requires i <= |rows|
    requires i == |rows| || !ReleaseRows(db, rows[..i]).1
    ensures ReleaseRows(db, rows) == ReleaseRows(db, rows[..i])
    decreases |rows|
  {
    if i == |rows| {
      assert rows[..i] == rows;
    } else {
      var front := rows[..|rows| - 1];
      assert front[..i] == rows[..i];
      ReleaseStops(db, front, i);
    }
  }
}
