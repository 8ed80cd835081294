/** Runs from an empty store in which the hub does what the conditions of HubInvariants warn of. Each is
    given for any store in which a machine can be created, and there is such a store. */
module HubWitnesses {
  import opened Hub
  import opened HubInvariants
  import opened Options
  import opened Slug

  /** CreateMachine succeeds for x on a store that has only its hubs. */
  predicate Creatable(hubs: map<Id, HubRow>, x: NewMachine) {
    && (forall h | h in hubs :: hubs[h].portStart > 0)
    && ValidSlug(x.slug) && x.hub in hubs
    && LeastUsable(Empty(hubs).db, x.hub, x.listening, hubs[x.hub].portStart, hubs[x.hub].portEnd).Some?
  }

  lemma SomethingIsCreatable()
    ensures exists hubs, x :: Creatable(hubs, x)
  {
    var hubs: map<Id, HubRow> := map["h" := HubRow(10000, 10001)];
    var x := NewMachine("m", "t", "abc", "h", "s", {}, true);
    assert Usable(Empty(hubs).db, "h", {}, 10000);
    assert Creatable(hubs, x);
  }

  /** Some run from the store with these hubs leads to this state. */
  ghost predicate Reachable(hubs: map<Id, HubRow>, fold: string -> string, s: State) {
    exists steps :: Exec(Empty(hubs), steps, fold) == s
  }

  lemma ReachNext(hubs: map<Id, HubRow>, fold: string -> string, s: State, step: Step)
    requires Reachable(hubs, fold, s)
    ensures Reachable(hubs, fold, Next(s, step, fold))
  {
    hide Next;
    var steps :| Exec(Empty(hubs), steps, fold) == s;
    assert (steps + [step])[..|steps|] == steps;
    assert Exec(Empty(hubs), steps + [step], fold) == Next(s, step, fold);
  }

  /** The store holds this machine and its tunnel and nothing else. */
  predicate Only(db: Db, x: NewMachine) {
    db.machines.Keys == {x.machine} && db.tunnels.Keys == {x.tunnel} && db.tunnels[x.tunnel].machine == x.machine
  }

  lemma Created(hubs: map<Id, HubRow>, x: NewMachine, fold: string -> string) returns (s: State)
    requires Creatable(hubs, x)
    ensures Reachable(hubs, fold, s) && Only(s.db, x) && s.jobs == map[]
    ensures s.db.machines[x.machine].desired == Active && s.db.tunnels[x.tunnel].status == TOffline
  {
    var s1 := Creating(hubs, x, fold);
    ReachNext(hubs, fold, s1, CreateEnd(1, true));
    s := Next(s1, CreateEnd(1, true), fold);
  }

  /** The machine is there, and its system account is being made. */
  lemma Creating(hubs: map<Id, HubRow>, x: NewMachine, fold: string -> string) returns (s: State)
    requires Creatable(hubs, x)
    ensures Reachable(hubs, fold, s) && Only(s.db, x) && s.jobs == map[1 := Creation(x.machine, x.tunnel)]
    ensures s.db.machines[x.machine].desired == Active && s.db.tunnels[x.tunnel].status == TOffline
  {
    var s0 := Empty(hubs);
    assert Exec(s0, [], fold) == s0;
    ReachNext(hubs, fold, s0, Create(1, x));
    s := Next(s0, Create(1, x), fold);
    assert !PortTaken(s0.db, x.hub, 0, x.tunnel);
    hide LeastUsable, ValidSlug;
    assert CreateRows(s0.db, x).1.None?;
  }

  lemma OnlyRows(db: Db, x: NewMachine)
    requires Only(db, x)
    ensures RowsOf(db, x.machine, [x.tunnel])
  {}

  /** Enabling, disabling or removing the one machine. */
  lemma Switched(hubs: map<Id, HubRow>, x: NewMachine, fold: string -> string, s: State, desired: Desired)
      returns (s': State)
    requires Reachable(hubs, fold, s) && Only(s.db, x) && desired != Retired
    ensures Reachable(hubs, fold, s') && Only(s'.db, x) && s'.jobs == s.jobs
    ensures s'.db.machines[x.machine].desired == desired
    ensures var status, f := s.db.tunnels[x.tunnel].status, if desired == Active then UpStatus else DownStatus;
            s'.db.tunnels[x.tunnel] == s.db.tunnels[x.tunnel].(status := f(status))
    ensures desired != Active ==> StatusAgrees(s'.db)
  {
    var step := SetDesiredState(x.machine, desired, [x.tunnel], [], true);
    OnlyRows(s.db, x);
    ReachNext(hubs, fold, s, step);
    SwitchIs(s.db, x.machine, desired, [x.tunnel], [], true, fold);
    hide SetDesired, Reachable, RowsOf;
    s' := Next(s, step, fold);
  }

  /** Retiring it, with one draw of a short id. */
  lemma RetiredOnce(hubs: map<Id, HubRow>, x: NewMachine, fold: string -> string, s: State, short: string)
      returns (s': State)
    requires Reachable(hubs, fold, s) && Only(s.db, x) && TunnelsOk(s.db) && ShortId(short)
    ensures Reachable(hubs, fold, s') && Only(s'.db, x) && s'.jobs == s.jobs
    ensures s'.db.machines[x.machine].desired == Retired
    ensures s'.db.tunnels[x.tunnel].status == TRetired && s'.db.tunnels[x.tunnel].port < 0
  {
    var step := SetDesiredState(x.machine, Retired, [x.tunnel], [short], true);
    OnlyRows(s.db, x);
    hide Reachable, TunnelsOk, SetDesired, RowsOf, ShortId;
    ReachNext(hubs, fold, s, step);
    OneRetirement(s.db, x, fold, short);
    s' := Next(s, step, fold);
  }

  lemma OneRetirement(db: Db, x: NewMachine, fold: string -> string, short: string)
    requires Only(db, x) && TunnelsOk(db)
    ensures var db' := SetDesired(db, x.machine, Retired, [x.tunnel], [short], true, fold).0;
            && Only(db', x) && db'.machines[x.machine].desired == Retired
            && db'.tunnels[x.tunnel].status == TRetired && db'.tunnels[x.tunnel].port < 0
  {
    RetireIs(db, x.machine, [x.tunnel], [short], true, fold);
    hide TunnelsOk, SetDesired, RetireRows, PickRetiredSlug;
    RetireRowsWorks(db, [x.tunnel]);
    FreeSlug(RetireRows(db, [x.tunnel]), x.machine, db.machines[x.machine].originalSlug, short, fold);
  }

  lemma FreeSlug(db: Db, id: Id, original: string, short: string, fold: string -> string)
    requires db.machines.Keys == {id}
    ensures PickRetiredSlug(db, id, original, [short], fold).Some?
  {}

  lemma GoodState(hubs: map<Id, HubRow>, fold: string -> string, s: State)
    requires (forall h | h in hubs :: hubs[h].portStart > 0) && Reachable(hubs, fold, s)
    ensures StateInv(s) && TunnelsOk(s.db)
  {
    var steps :| Exec(Empty(hubs), steps, fold) == s;
    EveryRunKeepsInv(hubs, steps, fold);
  }

  ghost predicate FreeSlugDrawn(s: State, step: Step, fold: string -> string, m: Id) {
    && step.SetDesiredState? && m in s.db.machines
    && exists short :: short in step.draws
         && !SlugTaken(s.db, RetiredCandidate(s.db.machines[m].originalSlug, short, fold), m)
  }

  /** Create, disable, retire with a free slug and a last UPDATE that fails: the machine stays disabled with
      a retired tunnel. */
  lemma ARetirementCanFail(hubs: map<Id, HubRow>, x: NewMachine, fold: string -> string)
    requires Creatable(hubs, x)
    ensures exists s, step ::
              && Reachable(hubs, fold, s) && DisabledIsDown(s.db, x.machine)
              && FailedRetirement(s, step, fold, x.machine) && FreeSlugDrawn(s, step, fold, x.machine)
              && !DisabledIsDown(Next(s, step, fold).db, x.machine)
  {
    hide Creatable, Reachable, TunnelsOk, StateInv, Next, StatusAgrees;
    CreatableHubs(hubs, x);
    var s1 := Created(hubs, x, fold);
    var s2 := Switched(hubs, x, fold, s1, Disabled);
    var step := SetDesiredState(x.machine, Retired, [x.tunnel], ["aaaaaaaa"], false);
    GoodState(hubs, fold, s2);
    NotSaved(s2, x, fold);
    hide *;
    InvOf(s2);
    OnlyFailuresUndisable(s2, step, fold, x.machine);
  }

  lemma InvOf(s: State)
    requires StateInv(s)
    ensures Inv(s.db)
  {}

  lemma NotSaved(s: State, x: NewMachine, fold: string -> string)
    requires Only(s.db, x) && s.db.machines[x.machine].desired == Disabled && s.db.tunnels[x.tunnel].status == TDisabled
    ensures var step := SetDesiredState(x.machine, Retired, [x.tunnel], ["aaaaaaaa"], false);
            && DisabledIsDown(s.db, x.machine)
            && FailedRetirement(s, step, fold, x.machine) && FreeSlugDrawn(s, step, fold, x.machine)
  {
    OnlyRows(s.db, x);
    EightLetters();
    hide RowsOf, RetiredCandidate, ShortId;
    assert "aaaaaaaa" in ["aaaaaaaa"];
  }

  /** Create, disable while the account is being made, and finish: the status no longer says disabled, and if
      the account could not be made, the tunnel is no longer disabled. */
  lemma ACreationCanFinishLate(hubs: map<Id, HubRow>, x: NewMachine, fold: string -> string)
    requires Creatable(hubs, x)
    ensures exists s ::
              && Reachable(hubs, fold, s) && StatusAgrees(s.db) && DisabledIsDown(s.db, x.machine)
              && (forall ok :: !StatusAgrees(Next(s, CreateEnd(1, ok), fold).db))
              && !DisabledIsDown(Next(s, CreateEnd(1, false), fold).db, x.machine)
  {
    hide Creatable, Reachable, TunnelsOk, StateInv, Next, StatusAgrees;
    CreatableHubs(hubs, x);
    var s1 := Creating(hubs, x, fold);
    var s := Switched(hubs, x, fold, s1, Disabled);
    GoodState(hubs, fold, s);
    LateEnd(s, x);
    hide *;
    InvOf(s);
    OnlyFailuresUndisable(s, CreateEnd(1, false), fold, x.machine);
    forall ok: bool
      ensures !StatusAgrees(Next(s, CreateEnd(1, ok), fold).db)
    {
      AgreementIsKeptExactlyByTimelyWrites(s, CreateEnd(1, ok), fold);
    }
  }

  lemma LateEnd(s: State, x: NewMachine)
    requires Only(s.db, x) && s.db.machines[x.machine].desired == Disabled
    requires s.jobs == map[1 := Creation(x.machine, x.tunnel)] && s.db.tunnels[x.tunnel].status == TDisabled
    ensures DisabledIsDown(s.db, x.machine) && FailedCreation(s, CreateEnd(1, false), x.machine)
    ensures forall ok :: !Timely(s, CreateEnd(1, ok))
  {}

  /** Create, read for recomputeObserved, disable, write: the status no longer says disabled. */
  lemma AWriteCanBeLate(hubs: map<Id, HubRow>, x: NewMachine, fold: string -> string)
    requires Creatable(hubs, x)
    ensures exists s, step ::
              && Reachable(hubs, fold, s) && StatusAgrees(s.db) && !Timely(s, step)
              && !StatusAgrees(Next(s, step, fold).db)
  {
    hide Creatable, Reachable, TunnelsOk, StateInv, Next, StatusAgrees;
    CreatableHubs(hubs, x);
    var s1 := Created(hubs, x, fold);
    var s2 := Observing(hubs, x, fold, s1, Unknown);
    var s := Switched(hubs, x, fold, s2, Disabled);
    GoodState(hubs, fold, s);
    LateWrite(s, x);
    hide *;
    InvOf(s);
    AgreementIsKeptExactlyByTimelyWrites(s, RecomputeWrite(1), fold);
  }

  lemma LateWrite(s: State, x: NewMachine)
    requires Only(s.db, x) && s.db.machines[x.machine].desired == Disabled
    requires s.jobs == map[1 := Observation(x.machine, Active, Unknown)]
    ensures !Timely(s, RecomputeWrite(1))
  {}

  /** The reads of a recomputeObserved that finds the machine degraded or unknown. */
  lemma Observing(hubs: map<Id, HubRow>, x: NewMachine, fold: string -> string, s: State, observed: Observed)
      returns (s': State)
    requires Reachable(hubs, fold, s) && Only(s.db, x) && s.jobs == map[]
             && (observed == Unknown || observed == Degraded)
    ensures Reachable(hubs, fold, s') && s'.db == s.db
    ensures s'.jobs == map[1 := Observation(x.machine, s.db.machines[x.machine].desired, observed)]
  {
    var read := RecomputeRead(1, x.machine, View(false, false, false, false, observed == Degraded, false));
    ReachNext(hubs, fold, s, read);
    s' := Next(s, read, fold);
  }

  /** Create, retire, disable, enable, observe: the machine is listed with a negative port. */
  lemma ARetiredMachineCanBeListed(hubs: map<Id, HubRow>, x: NewMachine, fold: string -> string)
    requires Creatable(hubs, x)
    ensures exists s :: Reachable(hubs, fold, s) && Listed(s.db, x.machine, x.tunnel) && s.db.tunnels[x.tunnel].port < 0
  {
    var s1 := Revived(hubs, x, fold);
    var s2 := Observing(hubs, x, fold, s1, Degraded);
    ReachNext(hubs, fold, s2, RecomputeWrite(1));
    ObservedIsListed(s2, x, fold);
    hide *;
    assert Reachable(hubs, fold, Next(s2, RecomputeWrite(1), fold));
  }

  lemma Revived(hubs: map<Id, HubRow>, x: NewMachine, fold: string -> string) returns (s: State)
    requires Creatable(hubs, x)
    ensures Reachable(hubs, fold, s) && Only(s.db, x) && s.jobs == map[]
    ensures s.db.machines[x.machine].desired == Active
    ensures s.db.tunnels[x.tunnel].status == TOffline && s.db.tunnels[x.tunnel].port < 0
  {
    hide Creatable, Reachable, TunnelsOk, StatusAgrees, StateInv;
    var s1 := Created(hubs, x, fold);
    CreatableHubs(hubs, x);
    GoodState(hubs, fold, s1);
    EightLetters();
    var s2 := RetiredOnce(hubs, x, fold, s1, "aaaaaaaa");
    var s3 := Switched(hubs, x, fold, s2, Disabled);
    s := Switched(hubs, x, fold, s3, Active);
  }

  lemma CreatableHubs(hubs: map<Id, HubRow>, x: NewMachine)
    requires Creatable(hubs, x)
    ensures forall h | h in hubs :: hubs[h].portStart > 0
  {}

  lemma EightLetters()
    ensures ShortId("aaaaaaaa")
  {}

  lemma ObservedIsListed(s: State, x: NewMachine, fold: string -> string)
    requires Only(s.db, x) && s.db.machines[x.machine].desired == Active
    requires s.db.tunnels[x.tunnel].status == TOffline
    requires s.jobs == map[1 := Observation(x.machine, Active, Degraded)]
    ensures var db' := Next(s, RecomputeWrite(1), fold).db;
            Listed(db', x.machine, x.tunnel) && db'.tunnels == s.db.tunnels
  {}
}
