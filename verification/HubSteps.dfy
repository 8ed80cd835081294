/** The steps of the hub's runs are its handlers: a handler that is split runs, when nothing comes between its
    steps, as the whole handler does. */
module HubSteps {
  import opened Hub
  import opened HubInvariants
  import opened Options
  import opened Slug

  /** CreateMachine. A failed transaction leaves nothing to finish. */
  lemma CreateInSteps(s: State, j: nat, x: NewMachine, fold: string -> string)
    requires j !in s.jobs
    ensures var (db', err) := CreateMachine(s.db, x);
            var begun := Next(s, Create(j, x), fold);
            Next(begun, CreateEnd(j, x.accountOk), fold) ==
            if err.None? || err == Some(AccountFailed) then s.(db := db') else s
  {
    hide CreateRows, FinishCreate;
    NoRowsOnError(s.db, x);
    var (db', err) := CreateRows(s.db, x);
    if err.None? {
      var jobs := s.jobs[j := Creation(x.machine, x.tunnel)];
      assert jobs - {j} == s.jobs;
    }
  }

  lemma NoRowsOnError(db: Db, x: NewMachine)
    ensures CreateRows(db, x).1.Some? ==> CreateRows(db, x).0 == db && CreateRows(db, x).1 != Some(AccountFailed)
  {}

  /** recomputeObserved: the status follows the desired state of that moment. */
  lemma RecomputeInSteps(s: State, j: nat, m: Id, view: View, fold: string -> string)
    requires j !in s.jobs && m in s.db.machines
    ensures var later := Next(Next(s, RecomputeRead(j, m, view), fold), RecomputeWrite(j), fold);
            later == s.(db := WriteObserved(s.db, m, s.db.machines[m].desired, ComputeObserved(view)))
  {
    var jobs := s.jobs[j := Observation(m, s.db.machines[m].desired, ComputeObserved(view))];
    assert jobs - {j} == s.jobs;
  }

  /** queueAgentUpdate: one command, of the machine's generation. */
  lemma UpdateInSteps(s: State, j: nat, m: Id, fold: string -> string)
    requires j !in s.jobs && m in s.db.machines
    ensures var later := Next(Next(s, UpdateRead(j, m), fold), UpdateWrite(j), fold);
            && later == s.(db := later.db) && later.db == s.db.(commands := later.db.commands)
            && later.db.commands == s.db.commands + [Command(m, s.db.machines[m].generation, UpdateAgent)]
  {
    var jobs := s.jobs[j := Update(m, s.db.machines[m].generation)];
    assert jobs - {j} == s.jobs;
  }

  /** SetProcessTitleConfig raises the machine's generation by one and changes nothing else. */
  lemma TitleRaisesGeneration(s: State, m: Id, fold: string -> string)
    ensures var later := Next(s, SetProcessTitle(m), fold);
            && later == s.(db := later.db) && later.db == s.db.(machines := later.db.machines)
            && later.db.machines.Keys == s.db.machines.Keys
            && forall n | n in s.db.machines ::
                 var was := s.db.machines[n];
                 later.db.machines[n] == was.(generation := was.generation + if n == m then 1 else 0)
  {}

  predicate IsDown(status: TunnelStatus) {
    status == TDisabled || status == TRetired || status == TFailed
  }

  /** A heartbeat brings the tunnels of its machine online that are not down, and changes nothing else. */
  lemma HeartbeatStep(s: State, m: Id, fold: string -> string)
    ensures var later := Next(s, HeartbeatTunnels(m), fold);
            && later == s.(db := s.db.(tunnels := later.db.tunnels)) && later.db.tunnels.Keys == s.db.tunnels.Keys
            && forall t | t in s.db.tunnels ::
                 var was := s.db.tunnels[t];
                 later.db.tunnels[t] == if was.machine == m && !IsDown(was.status) then was.(status := TOnline) else was
  {}

  /** A probe changes its tunnel unless that is down, and nothing else. */
  lemma ProbeStep(s: State, t: Id, ok: bool, fold: string -> string)
    ensures var later := Next(s, ProbeTunnel(t, ok), fold);
            && later == s.(db := s.db.(tunnels := later.db.tunnels)) && later.db.tunnels.Keys == s.db.tunnels.Keys
            && (forall u | u in s.db.tunnels && u != t :: later.db.tunnels[u] == s.db.tunnels[u])
            && (t in s.db.tunnels ==>
                  var was := s.db.tunnels[t];
                  later.db.tunnels[t] ==
                  if IsDown(was.status) then was else was.(status := if ok then TOnline else TOffline))
  {}

  /** A change of desired state and a migration. */
  lemma TablesInOneStep(s: State, m: Id, desired: Desired, rows: seq<Id>, draws: seq<string>, saved: bool,
      fold: string -> string)
    ensures RowsOf(s.db, m, rows) && Draws(draws) ==>
              Next(s, SetDesiredState(m, desired, rows, draws, saved), fold) ==
                s.(db := SetDesired(s.db, m, desired, rows, draws, saved, fold).0)
    ensures RetiredRows(s.db, rows) ==>
              Next(s, ReleaseRetiredTunnels(rows), fold) == s.(db := ReleaseRetired(s.db, rows).0)
  {
    hide SetDesired, ReleaseRetired, RowsOf, Draws, RetiredRows;
  }

  // ---------- Who is listed ----------

  /** In every run a machine is listed with a tunnel exactly when it was last observed online or degraded and
      the tunnel is online or offline: that the machine is to be active follows. */
  lemma WhoIsListed(hubs: map<Id, HubRow>, steps: seq<Step>, fold: string -> string, m: Id, t: Id)
    requires forall h | h in hubs :: hubs[h].portStart > 0
    ensures var db := Exec(Empty(hubs), steps, fold).db;
            Listed(db, m, t) <==>
            && m in db.machines && t in db.tunnels && db.tunnels[t].machine == m
            && (db.machines[m].observed == Online || db.machines[m].observed == Degraded)
            && (db.tunnels[t].status == TOnline || db.tunnels[t].status == TOffline)
  {
    hide Exec, TunnelsOk, SlugsOk, CommandsOk;
    EveryRunKeepsInv(hubs, steps, fold);
  }
}
