/** What every run of the hub keeps: the machine steps one by one, then whole runs in which other steps may
    come between the statements of recomputeObserved, queueAgentUpdate and CreateMachine. */
module HubInvariants {
  import opened Hub
  import opened Options
  import opened Slug

  // ---------- Tunnel rows ----------

  ghost predicate HubsOk(db: Db) {
    forall h | h in db.hubs :: db.hubs[h].portStart > 0
  }

  ghost predicate UniqueRows(db: Db) {
    forall t, u | t in db.tunnels && u in db.tunnels && t != u && db.tunnels[t].hub == db.tunnels[u].hub ::
      db.tunnels[t].port != db.tunnels[u].port && db.tunnels[t].user != db.tunnels[u].user
  }

  /** One row: either live, with its own port inside the hub's range, or released for good. */
  ghost predicate RowOk(db: Db, id: Id, t: Tunnel) {
    && t.machine in db.machines && t.hub in db.hubs
    && t.originalPort.Some? && t.originalUser.Some? && HasPrefix(t.originalUser.value, LIVE_PREFIX)
    && db.hubs[t.hub].portStart <= t.originalPort.value <= db.hubs[t.hub].portEnd && !ReservedPort(t.originalPort.value)
    && t.port != 0
    && (t.port > 0 ==> t.port == t.originalPort.value && t.user == t.originalUser.value && t.status != TRetired)
    && (t.port < 0 ==> t.user == RETIRED_PREFIX + id)
  }

  ghost predicate RowsOk(db: Db) {
    forall id | id in db.tunnels :: RowOk(db, id, db.tunnels[id])
  }

  ghost predicate TunnelsOk(db: Db) {
    HubsOk(db) && UniqueRows(db) && RowsOk(db)
  }

  lemma PrefixesDiffer(u: string, id: Id)
    requires HasPrefix(u, LIVE_PREFIX)
    ensures !HasPrefix(u, RETIRED_PREFIX) && u != RETIRED_PREFIX + id && HasPrefix(RETIRED_PREFIX + id, RETIRED_PREFIX)
  {
    assert u[1] == LIVE_PREFIX[1] == 't';
    assert (RETIRED_PREFIX + id)[1] == 'e' && RETIRED_PREFIX[1] == 'e';
  }

  lemma RetiredUsersDiffer(id: Id, other: Id)
    requires id != other
    ensures RETIRED_PREFIX + id != RETIRED_PREFIX + other
  {
    assert (RETIRED_PREFIX + id)[|RETIRED_PREFIX|..] == id;
    assert (RETIRED_PREFIX + other)[|RETIRED_PREFIX|..] == other;
  }

  /** The port allocatePortTx picks never collides: every positive port of the hub is among those its
      query returns. */
  lemma AllocatedPortIsFree(db: Db, hub: Id, listening: set<int>, besides: Id)
    requires TunnelsOk(db) && hub in db.hubs
    ensures var r := LeastUsable(db, hub, listening, db.hubs[hub].portStart, db.hubs[hub].portEnd);
            r.Some? ==> r.value > 0 && !PortTaken(db, hub, r.value, besides)
  {}

  /** A port that allocatePortTx may give out. */
  predicate Grantable(db: Db, hub: Id, listening: set<int>, p: int) {
    && p != 9300 && p != 9401 && p != 9443 && !(9163 <= p <= 9171)
    && p !in listening
    && forall t | t in db.tunnels && db.tunnels[t].hub == hub && db.tunnels[t].port == p ::
         db.tunnels[t].status == TRetired
  }

  /** It gives out the first such port of the range. */
  lemma FirstGrantablePort(db: Db, hub: Id, listening: set<int>, lo: int, hi: int)
    ensures var r := LeastUsable(db, hub, listening, lo, hi);
            && (r.Some? ==> lo <= r.value <= hi && Grantable(db, hub, listening, r.value)
                              && forall p | lo <= p < r.value :: !Grantable(db, hub, listening, p))
            && (r.None? ==> forall p | lo <= p <= hi :: !Grantable(db, hub, listening, p))
  {
    forall p
      ensures Grantable(db, hub, listening, p) <==> Usable(db, hub, listening, p)
    {}
    hide Grantable, Usable;
  }

  /** The transaction of CreateMachine either leaves the tables alone or adds one machine and its one tunnel,
      whose port is the least usable one. */
  lemma CreateAddsTwoRows(db: Db, x: NewMachine) returns (m: Machine, t: Tunnel)
    requires TunnelsOk(db) && CreateRows(db, x).1.None?
    ensures CreateRows(db, x).0 == AddRows(db, x.machine, m, x.tunnel, t)
    ensures x.machine !in db.machines && x.tunnel !in db.tunnels && x.hub in db.hubs
    ensures m.slug == x.slug && ValidSlug(m.slug) && !SlugTaken(db, m.slug, x.machine) && m.desired == Active
    ensures t.machine == x.machine && t.hub == x.hub && t.status == TOffline && t.port > 0
    ensures t.user == LIVE_PREFIX + x.short && t.originalUser == Some(t.user) && t.originalPort == Some(t.port)
    ensures LeastUsable(db, x.hub, x.listening, db.hubs[x.hub].portStart, db.hubs[x.hub].portEnd) == Some(t.port)
    ensures !PortTaken(db, t.hub, t.port, x.tunnel) && !UserTaken(db, t.hub, t.user, x.tunnel)
  {
    hide PortTaken, UserTaken, SlugTaken, ValidSlug;
    var db' := CreateRows(db, x).0;
    m, t := db'.machines[x.machine], db'.tunnels[x.tunnel];
  }

  function AddRows(db: Db, mid: Id, m: Machine, tid: Id, t: Tunnel): Db {
    db.(machines := db.machines[mid := m], tunnels := db.tunnels[tid := t])
  }

  lemma CreateKeepsTunnels(db: Db, x: NewMachine)
    requires TunnelsOk(db)
    ensures TunnelsOk(CreateRows(db, x).0)
  {
    if CreateRows(db, x).1.None? {
      var m, t := CreateAddsTwoRows(db, x);
      assert HasPrefix(LIVE_PREFIX + x.short, LIVE_PREFIX);
      AddRowsKeeps(db, x.machine, m, x.tunnel, t);
    }
  }

  lemma AddRowsKeeps(db: Db, mid: Id, m: Machine, tid: Id, t: Tunnel)
    requires TunnelsOk(db) && tid !in db.tunnels
    requires RowOk(AddRows(db, mid, m, tid, t), tid, t)
    requires !PortTaken(db, t.hub, t.port, tid) && !UserTaken(db, t.hub, t.user, tid)
    ensures TunnelsOk(AddRows(db, mid, m, tid, t))
  {
    var db' := AddRows(db, mid, m, tid, t);
    assert forall id | id in db.tunnels :: RowOk(db, id, db.tunnels[id]);
  }

  /** An UPDATE that is not refused keeps the columns distinct. */
  lemma UpdateKeepsUnique(db: Db, id: Id, t: Tunnel)
    requires UniqueRows(db) && UpdateTunnel(db, id, t).1
    ensures UniqueRows(UpdateTunnel(db, id, t).0)
  {}

  lemma UpdateKeepsRows(db: Db, id: Id, t: Tunnel)
    requires RowsOk(db) && RowOk(db, id, t)
    ensures RowsOk(db.(tunnels := db.tunnels[id := t]))
  {
    var db' := db.(tunnels := db.tunnels[id := t]);
    assert forall u, row :: RowOk(db', u, row) == RowOk(db, u, row);
    hide RowOk;
  }

  /** The row that a retirement writes, and why no other row of the hub is in its way. */
  lemma RetiredRowIsFree(db: Db, id: Id, port: int)
    requires TunnelsOk(db) && id in db.tunnels
    requires port == if db.tunnels[id].port > 0 then NextRetiredPort(db, db.tunnels[id].hub) else db.tunnels[id].port
    ensures RetiredUser(id, db.tunnels[id].user) == RETIRED_PREFIX + id && port < 0
    ensures !PortTaken(db, db.tunnels[id].hub, port, id) && !UserTaken(db, db.tunnels[id].hub, RETIRED_PREFIX + id, id)
  {
    var t := db.tunnels[id];
    assert RowOk(db, id, t);
    PrefixesDiffer(t.originalUser.value, id);
    forall u | u in db.tunnels && u != id && db.tunnels[u].hub == t.hub
      ensures db.tunnels[u].port != port && db.tunnels[u].user != RETIRED_PREFIX + id
    {
      assert RowOk(db, u, db.tunnels[u]);
      RetiredUsersDiffer(id, u);
      PrefixesDiffer(db.tunnels[u].originalUser.value, id);
    }
  }

  /** Retiring a row is never refused by a UNIQUE constraint. It gives the row its own negative port and
      its own retired user, once and for all. */
  lemma RetireRowWorks(db: Db, id: Id)
    requires TunnelsOk(db) && id in db.tunnels
    ensures var (db', ok) := RetireRow(db, id);
            && ok && TunnelsOk(db')
            && db' == db.(tunnels := db.tunnels[id := db'.tunnels[id]])
            && var t, t' := db.tunnels[id], db'.tunnels[id];
               && t'.port < 0 && (t.port < 0 ==> t'.port == t.port) && t'.status == TRetired
               && t'.machine == t.machine && t'.hub == t.hub
               && t'.originalPort == t.originalPort && t'.originalUser == t.originalUser
  {
    var t := db.tunnels[id];
    var port := if t.port > 0 then NextRetiredPort(db, t.hub) else t.port;
    RetiredRowIsFree(db, id, port);
    assert RowOk(db, id, t);
    var t' := t.(status := TRetired, user := RETIRED_PREFIX + id, port := port);
    assert RowOk(db, id, t');
    hide RowOk, RowsOk, UniqueRows, PortTaken, UserTaken, NextRetiredPort;
    assert RetireRow(db, id) == UpdateTunnel(db, id, t');
    UpdateKeepsUnique(db, id, t');
    UpdateKeepsRows(db, id, t');
  }

  lemma {:induction false} RetireRowsWorks(db: Db, rows: seq<Id>)
    requires TunnelsOk(db) && forall i | 0 <= i < |rows| :: rows[i] in db.tunnels
    ensures var db' := RetireRows(db, rows);
            && TunnelsOk(db') && db'.hubs == db.hubs && db'.machines == db.machines && db'.commands == db.commands
            && db'.tunnels.Keys == db.tunnels.Keys
            && (forall id | id in db.tunnels && id !in rows :: db'.tunnels[id] == db.tunnels[id])
            && (forall id | id in rows :: db'.tunnels[id].status == TRetired && db'.tunnels[id].port < 0)
            && (forall id | id in db.tunnels :: Lasting(db.tunnels[id], db'.tunnels[id]))
    decreases |rows|
  {
    hide TunnelsOk, RetireRow;
    if rows != [] {
      var front, id := rows[..|rows| - 1], rows[|rows| - 1];
      RetireRowsWorks(db, front);
      RetireRowWorks(RetireRows(db, front), id);
      assert rows == front + [id];
    }
  }

  /** What no step may change in a tunnel row: its machine, hub and originals, and a released port. */
  predicate Lasting(t: Tunnel, t': Tunnel) {
    && t'.machine == t.machine && t'.hub == t.hub
    && t'.originalPort == t.originalPort && t'.originalUser == t.originalUser
    && (t.port < 0 ==> t'.port == t.port)
  }

  lemma MapTunnelsKeeps(db: Db, m: Id, f: TunnelStatus -> TunnelStatus)
    requires TunnelsOk(db)
    requires forall s :: f(s) == TRetired ==> s == TRetired
    ensures TunnelsOk(MapTunnels(db, m, f))
  {
    var db' := MapTunnels(db, m, f);
    forall id | id in db'.tunnels
      ensures RowOk(db', id, db'.tunnels[id])
    {
      assert RowOk(db, id, db.tunnels[id]);
    }
  }

  // ---------- Machines and commands ----------

  ghost predicate SlugsOk(db: Db) {
    && (forall m | m in db.machines :: ValidSlug(db.machines[m].slug))
    && (forall m, n | m in db.machines && n in db.machines && m != n :: db.machines[m].slug != db.machines[n].slug)
  }

  /** Every queued command belongs to a machine and to a generation it has already reached. */
  ghost predicate CommandsOk(db: Db) {
    forall i | 0 <= i < |db.commands| ::
      var c := db.commands[i];
      c.machine in db.machines && c.generation <= db.machines[c.machine].generation
  }

  /** Tunnels of a machine that is to be down are down, and those of a retired machine have released ports. */
  predicate TunnelAgrees(desired: Desired, t: Tunnel) {
    (desired != Active ==> Down(t.status)) && (desired == Retired ==> t.port < 0)
  }

  ghost predicate DownIsDown(db: Db) {
    forall t | t in db.tunnels && db.tunnels[t].machine in db.machines ::
      TunnelAgrees(db.machines[db.tunnels[t].machine].desired, db.tunnels[t])
  }

  ghost predicate Inv(db: Db) {
    TunnelsOk(db) && SlugsOk(db) && CommandsOk(db) && DownIsDown(db)
  }

  /** machines.status names the desired state of a machine that is not to be active. */
  ghost predicate StatusAgrees(db: Db) {
    forall m | m in db.machines && db.machines[m].desired != Active ::
      db.machines[m].shown == Wanted(db.machines[m].desired)
  }

  // ---------- Runs ----------

  /** A call before its final statement: recomputeObserved after its reads, queueAgentUpdate with the machine
      row it was given, or CreateMachine while it makes the system account. */
  datatype Job =
    | Observation(machine: Id, seen: Desired, observed: Observed)
    | Update(machine: Id, generation: nat)
    | Creation(machine: Id, tunnel: Id)

  datatype State = State(db: Db, jobs: map<nat, Job>)

  datatype Step =
    | Create(j: nat, x: NewMachine)
    | CreateEnd(j: nat, accountOk: bool)
    | SetDesiredState(m: Id, desired: Desired, rows: seq<Id>, draws: seq<string>, saved: bool)
    | SetProcessTitle(m: Id)
    | UpdateRead(j: nat, m: Id)
    | UpdateWrite(j: nat)
    | HeartbeatTunnels(m: Id)
    | ProbeTunnel(t: Id, ok: bool)
    | RecomputeRead(j: nat, m: Id, view: View)
    | RecomputeWrite(j: nat)
    | ReleaseRetiredTunnels(rows: seq<Id>)

  ghost predicate Enabled(s: State, step: Step) {
    match step
    case Create(j, x) => j !in s.jobs
    case CreateEnd(j, _) => j in s.jobs && s.jobs[j].Creation?
    case SetDesiredState(m, desired, rows, draws, saved) => RowsOf(s.db, m, rows) && Draws(draws)
    case UpdateRead(j, m) => j !in s.jobs && m in s.db.machines
    case UpdateWrite(j) => j in s.jobs && s.jobs[j].Update?
    case RecomputeRead(j, m, _) => j !in s.jobs && m in s.db.machines
    case RecomputeWrite(j) => j in s.jobs && s.jobs[j].Observation?
    case ReleaseRetiredTunnels(rows) => RetiredRows(s.db, rows)
    case _ => true
  }

  /** A step that is not enabled changes nothing, so every sequence of steps is a run. */
  ghost function Next(s: State, step: Step, fold: string -> string): State {
    if !Enabled(s, step) then s
    else
      match step
      case Create(j, x) =>
        var (db', err) := CreateRows(s.db, x);
        if err.Some? then s else State(db', s.jobs[j := Creation(x.machine, x.tunnel)])
      case CreateEnd(j, accountOk) =>
        State(FinishCreate(s.db, s.jobs[j].machine, s.jobs[j].tunnel, accountOk), s.jobs - {j})
      case SetDesiredState(m, desired, rows, draws, saved) =>
        s.(db := SetDesired(s.db, m, desired, rows, draws, saved, fold).0)
      case SetProcessTitle(m) => s.(db := SetTitle(s.db, m))
      case UpdateRead(j, m) => s.(jobs := s.jobs[j := Update(m, s.db.machines[m].generation)])
      case UpdateWrite(j) => State(QueueUpdate(s.db, s.jobs[j].machine, s.jobs[j].generation), s.jobs - {j})
      case HeartbeatTunnels(m) => s.(db := Heartbeat(s.db, m))
      case ProbeTunnel(t, ok) => s.(db := Probe(s.db, t, ok))
      case RecomputeRead(j, m, view) =>
        s.(jobs := s.jobs[j := Observation(m, s.db.machines[m].desired, ComputeObserved(view))])
      case RecomputeWrite(j) =>
        var job := s.jobs[j];
        State(WriteObserved(s.db, job.machine, job.seen, job.observed), s.jobs - {j})
      case ReleaseRetiredTunnels(rows) => s.(db := ReleaseRetired(s.db, rows).0)
  }

  ghost function Exec(s: State, steps: seq<Step>, fold: string -> string): State {
    if steps == [] then s else Next(Exec(s, steps[..|steps| - 1], fold), steps[|steps| - 1], fold)
  }

  /** A waiting update knows a generation that its machine has reached. */
  ghost predicate JobsOk(s: State) {
    forall j | j in s.jobs && s.jobs[j].Update? ::
      s.jobs[j].machine in s.db.machines && s.jobs[j].generation <= s.db.machines[s.jobs[j].machine].generation
  }

  ghost predicate StateInv(s: State) {
    Inv(s.db) && JobsOk(s)
  }

  /** A store with its hubs and nothing else. */
  function Empty(hubs: map<Id, HubRow>): State {
    State(Db(hubs, map[], map[], []), map[])
  }

  // ---------- Each step keeps the invariant ----------

  lemma CreateInv(db: Db, x: NewMachine)
    requires Inv(db)
    ensures Inv(CreateRows(db, x).0)
  {
    CreateKeepsTunnels(db, x);
    CreateKeepsMachines(db, x);
  }

  lemma CreateKeepsMachines(db: Db, x: NewMachine)
    requires Inv(db)
    ensures var db' := CreateRows(db, x).0; SlugsOk(db') && CommandsOk(db') && DownIsDown(db')
  {
    if CreateRows(db, x).1.None? {
      hide CreateRows, LeastUsable, PortTaken, UserTaken;
      var m, t := CreateAddsTwoRows(db, x);
      AddRowsKeepsMachines(db, x.machine, m, x.tunnel, t);
    }
  }

  /** The last UPDATEs of CreateMachine, whatever has happened to its rows since. */
  lemma FinishInv(db: Db, machine: Id, tunnel: Id, accountOk: bool)
    requires Inv(db)
    ensures Inv(FinishCreate(db, machine, tunnel, accountOk))
  {
    hide Inv;
    if machine in db.machines {
      MachineOnlyInv(db, machine, FinishMachine(db, machine, accountOk).machines[machine]);
    }
    hide FinishMachine, FailTunnel;
    FailInv(FinishMachine(db, machine, accountOk), tunnel);
  }

  lemma FailInv(db: Db, tunnel: Id)
    requires Inv(db)
    ensures Inv(FailTunnel(db, tunnel))
  {
    if tunnel in db.tunnels {
      FailKeepsTunnels(db, tunnel);
      hide TunnelsOk;
    }
  }

  lemma FailKeepsTunnels(db: Db, tunnel: Id)
    requires TunnelsOk(db) && tunnel in db.tunnels
    ensures TunnelsOk(FailTunnel(db, tunnel))
  {
    assert RowOk(db, tunnel, db.tunnels[tunnel]);
    UpdateKeepsRows(db, tunnel, FailTunnel(db, tunnel).tunnels[tunnel]);
    hide RowsOk, RowOk;
  }

  lemma AddRowsKeepsMachines(db: Db, mid: Id, m: Machine, tid: Id, t: Tunnel)
    requires Inv(db) && mid !in db.machines && tid !in db.tunnels
    requires ValidSlug(m.slug) && !SlugTaken(db, m.slug, mid) && m.desired == Active && t.machine == mid
    ensures var db' := AddRows(db, mid, m, tid, t); SlugsOk(db') && CommandsOk(db') && DownIsDown(db')
  {
    hide ValidSlug;
    assert forall t | t in db.tunnels :: RowOk(db, t, db.tunnels[t]);
  }

  lemma EnqueueInv(db: Db, m: Id, generation: nat, kinds: seq<CommandType>)
    requires Inv(db) && m in db.machines && generation <= db.machines[m].generation
    ensures Inv(Enqueue(db, m, generation, kinds))
  {
    var db' := Enqueue(db, m, generation, kinds);
    assert TunnelsOk(db') by {
      assert forall id | id in db.tunnels :: RowOk(db, id, db.tunnels[id]);
    }
    forall i | 0 <= i < |db'.commands|
      ensures var c := db'.commands[i]; c.machine in db'.machines && c.generation <= db'.machines[c.machine].generation
    {
      if i < |db.commands| {
        assert db'.commands[i] == db.commands[i];
      }
    }
  }

  /** Changing a machine's states, with its generation not going down and its slug kept. */
  lemma SetMachineKeeps(db: Db, id: Id, m: Machine)
    requires TunnelsOk(db) && SlugsOk(db) && CommandsOk(db) && id in db.machines
    requires m.generation >= db.machines[id].generation
    requires ValidSlug(m.slug) && !SlugTaken(db, m.slug, id)
    ensures TunnelsOk(SetMachine(db, id, m)) && SlugsOk(SetMachine(db, id, m)) && CommandsOk(SetMachine(db, id, m))
  {
    assert forall t | t in db.tunnels :: RowOk(db, t, db.tunnels[t]);
  }

  lemma OwnSlugIsFree(db: Db, id: Id)
    requires SlugsOk(db) && id in db.machines
    ensures !SlugTaken(db, db.machines[id].slug, id)
  {}

  /** Enabling, disabling, removing: one machine row, then its tunnels, then its commands. */
  lemma SwitchInv(db: Db, id: Id, m: Machine, f: TunnelStatus -> TunnelStatus, kinds: seq<CommandType>)
    requires Inv(db) && id in db.machines
    requires m.slug == db.machines[id].slug && m.generation == db.machines[id].generation + 1
    requires m.desired != Retired
    requires forall s :: (f(s) == TRetired ==> s == TRetired) && (m.desired != Active ==> Down(f(s)))
    ensures Inv(Enqueue(MapTunnels(SetMachine(db, id, m), id, f), id, m.generation, kinds))
  {
    OwnSlugIsFree(db, id);
    SetMachineKeeps(db, id, m);
    var db1 := SetMachine(db, id, m);
    MapTunnelsKeeps(db1, id, f);
    var db2 := MapTunnels(db1, id, f);
    assert DownIsDown(db2) by {
      hide TunnelAgrees;
    }
    EnqueueInv(db2, id, m.generation, kinds);
  }

  lemma SwitchIs(db: Db, id: Id, desired: Desired, rows: seq<Id>, draws: seq<string>, saved: bool,
      fold: string -> string)
    requires desired != Retired && id in db.machines
    ensures var m := SwitchMachine(db.machines[id], desired);
            var db' := MapTunnels(SetMachine(db, id, m), id, SwitchTunnel(desired));
            SetDesired(db, id, desired, rows, draws, saved, fold) ==
              (Enqueue(db', id, m.generation, SwitchCommands(desired)), true)
  {
    hide Enqueue, MapTunnels, SetMachine;
  }

  lemma RetireIs(db: Db, id: Id, rows: seq<Id>, draws: seq<string>, saved: bool, fold: string -> string)
    requires id in db.machines
    ensures var (db', ok) := SetDesired(db, id, Retired, rows, draws, saved, fold);
            var db1, m := RetireRows(db, rows), db.machines[id];
            var slug := PickRetiredSlug(db1, id, m.originalSlug, draws, fold);
            && ok == (slug.Some? && saved)
            && (!ok ==> db' == db1)
            && (ok ==> db' == SetMachine(db1, id, RetireMachine(m, slug.value)))
  {
    hide RetireRows, PickRetiredSlug, SetMachine;
  }

  lemma RetireInv(db: Db, id: Id, rows: seq<Id>, draws: seq<string>, saved: bool, fold: string -> string)
    requires Inv(db) && id in db.machines && RowsOf(db, id, rows) && Draws(draws)
    ensures Inv(SetDesired(db, id, Retired, rows, draws, saved, fold).0)
  {
    var m, db' := db.machines[id], RetireRows(db, rows);
    var slug := PickRetiredSlug(db', id, m.originalSlug, draws, fold);
    RetireIs(db, id, rows, draws, saved, fold);
    RetireRowsInv(db, id, rows);
    if slug.Some? && saved {
      var short :| short in draws && slug.value == RetiredCandidate(m.originalSlug, short, fold);
      RetiredCandidateIsValid(m.originalSlug, short, fold);
      SlugIsFree(db', id, m.originalSlug, draws, fold);
      hide SetDesired, RetireRows, RowsOf, TunnelsOk, SlugsOk, CommandsOk, DownIsDown, RetiredCandidate,
         PickRetiredSlug, ValidSlug, SlugTaken, SetMachine;
      SetMachineKeeps(db', id, RetireMachine(m, slug.value));
    }
  }

  lemma SlugIsFree(db: Db, id: Id, original: string, draws: seq<string>, fold: string -> string)
    ensures var slug := PickRetiredSlug(db, id, original, draws, fold); slug.Some? ==> !SlugTaken(db, slug.value, id)
  {}

  lemma RetireRowsInv(db: Db, id: Id, rows: seq<Id>)
    requires Inv(db) && id in db.machines && RowsOf(db, id, rows)
    ensures var db' := RetireRows(db, rows);
            && Inv(db') && db'.machines == db.machines
            && forall m: Machine :: m.desired == Retired ==> DownIsDown(SetMachine(db', id, m))
  {
    hide TunnelsOk, RetireRows, RowsOf, ValidSlug, DownIsDown;
    RowsExist(db, id, rows);
    RetireRowsWorks(db, rows);
    RetiredAreDown(db, RetireRows(db, rows), id, rows);
  }

  lemma RowsExist(db: Db, id: Id, rows: seq<Id>)
    requires RowsOf(db, id, rows)
    ensures forall i | 0 <= i < |rows| :: rows[i] in db.tunnels
  {
    forall i | 0 <= i < |rows|
      ensures rows[i] in db.tunnels
    {
      assert rows[i] in rows;
    }
  }

  /** After the retirement loop the machine may be marked retired or left as it was. */
  lemma RetiredAreDown(db: Db, db': Db, id: Id, rows: seq<Id>)
    requires DownIsDown(db) && RowsOf(db, id, rows) && id in db.machines
    requires db'.machines == db.machines && db'.tunnels.Keys == db.tunnels.Keys
    requires forall t | t in db.tunnels && t !in rows :: db'.tunnels[t] == db.tunnels[t]
    requires forall t | t in rows ::
               db'.tunnels[t].status == TRetired && db'.tunnels[t].port < 0
               && db'.tunnels[t].machine == db.tunnels[t].machine
    ensures DownIsDown(db')
    ensures forall m: Machine :: m.desired == Retired ==> DownIsDown(SetMachine(db', id, m))
  {}

  lemma SetDesiredInv(db: Db, id: Id, desired: Desired, rows: seq<Id>, draws: seq<string>, saved: bool,
      fold: string -> string)
    requires Inv(db) && RowsOf(db, id, rows) && Draws(draws)
    ensures Inv(SetDesired(db, id, desired, rows, draws, saved, fold).0)
  {
    if id in db.machines {
      hide Inv;
      if desired == Retired {
        RetireInv(db, id, rows, draws, saved, fold);
      } else {
        SwitchIs(db, id, desired, rows, draws, saved, fold);
        hide SetDesired;
        SwitchInv(db, id, SwitchMachine(db.machines[id], desired), SwitchTunnel(desired), SwitchCommands(desired));
      }
    }
  }

  lemma HeartbeatInv(db: Db, m: Id)
    requires Inv(db)
    ensures Inv(Heartbeat(db, m))
  {
    MapTunnelsKeeps(db, m, s => ProbedStatus(s, true));
  }

  lemma ProbeInv(db: Db, t: Id, ok: bool)
    requires Inv(db)
    ensures Inv(Probe(db, t, ok))
  {
    if t in db.tunnels {
      ProbeKeepsTunnels(db, t, ok);
      hide TunnelsOk;
    }
  }

  lemma ProbeKeepsTunnels(db: Db, t: Id, ok: bool)
    requires TunnelsOk(db) && t in db.tunnels
    ensures TunnelsOk(Probe(db, t, ok))
  {
    assert RowOk(db, t, db.tunnels[t]);
    UpdateKeepsRows(db, t, Probe(db, t, ok).tunnels[t]);
    hide RowsOk, RowOk;
  }

  lemma MachineOnlyInv(db: Db, id: Id, m: Machine)
    requires Inv(db) && id in db.machines
    requires m.slug == db.machines[id].slug && m.generation >= db.machines[id].generation
             && m.desired == db.machines[id].desired
    ensures Inv(SetMachine(db, id, m))
  {
    OwnSlugIsFree(db, id);
    SetMachineKeeps(db, id, m);
  }

  /** On a store this code built, releaseRetiredTunnels has nothing to do. */
  lemma {:induction false} ReleaseIsNoOp(db: Db, rows: seq<Id>)
    requires TunnelsOk(db) && forall t | t in rows :: t in db.tunnels && db.tunnels[t].status == TRetired
    ensures FillOriginals(db) == db
    ensures ReleaseRows(db, rows) == (db, true)
    decreases |rows|
  {
    if rows != [] {
      var id := rows[|rows| - 1];
      ReleaseIsNoOp(db, rows[..|rows| - 1]);
      assert RowOk(db, id, db.tunnels[id]);
      PrefixesDiffer(db.tunnels[id].originalUser.value, id);
    } else {
      assert forall t | t in db.tunnels :: RowOk(db, t, db.tunnels[t]);
      assert FillOriginals(db).tunnels == db.tunnels;
    }
  }

  lemma InvHasTunnels(db: Db)
    requires Inv(db)
    ensures TunnelsOk(db)
  {}

  lemma NextInv(s: State, step: Step, fold: string -> string)
    requires StateInv(s)
    ensures Inv(Next(s, step, fold).db)
  {
    hide Inv, CreateRows, FinishCreate, SetDesired, ReleaseRows;
    if Enabled(s, step) {
      match step
      case Create(j, x) => CreateInv(s.db, x);
      case CreateEnd(j, accountOk) => FinishInv(s.db, s.jobs[j].machine, s.jobs[j].tunnel, accountOk);
      case SetDesiredState(m, desired, rows, draws, saved) => SetDesiredInv(s.db, m, desired, rows, draws, saved, fold);
      case SetProcessTitle(m) =>
        if m in s.db.machines {
          MachineOnlyInv(s.db, m, s.db.machines[m].(generation := s.db.machines[m].generation + 1));
        }
      case UpdateRead(j, m) =>
      case UpdateWrite(j) => EnqueueInv(s.db, s.jobs[j].machine, s.jobs[j].generation, [UpdateAgent]);
      case HeartbeatTunnels(m) => HeartbeatInv(s.db, m);
      case ProbeTunnel(t, ok) => ProbeInv(s.db, t, ok);
      case RecomputeRead(j, m, view) =>
      case RecomputeWrite(j) =>
        var job := s.jobs[j];
        if job.machine in s.db.machines {
          MachineOnlyInv(s.db, job.machine,
            s.db.machines[job.machine].(observed := job.observed, shown := Effective(job.seen, job.observed)));
        }
      case ReleaseRetiredTunnels(rows) => InvHasTunnels(s.db); ReleaseIsNoOp(s.db, rows);
    }
  }

  // ---------- What lasts ----------

  /** One step never deletes a row, never touches a machine id, a hub or the originals, never moves a
      released port, and never lowers a generation; a changed desired state has a higher one. */
  ghost predicate Follows(db: Db, db': Db) {
    && (forall t | t in db.tunnels :: t in db'.tunnels && Lasting(db.tunnels[t], db'.tunnels[t]))
    && (forall m | m in db.machines :: m in db'.machines && Newer(db.machines[m], db'.machines[m]))
  }

  predicate Newer(m: Machine, m': Machine) {
    m.generation <= m'.generation && (m.desired != m'.desired ==> m.generation < m'.generation)
  }

  lemma FollowsTrans(a: Db, b: Db, c: Db)
    requires Follows(a, b) && Follows(b, c)
    ensures Follows(a, c)
  {}

  lemma AddRowsFollows(db: Db, mid: Id, m: Machine, tid: Id, t: Tunnel)
    requires mid !in db.machines && tid !in db.tunnels
    ensures Follows(db, AddRows(db, mid, m, tid, t))
  {}

  lemma CreateFollows(db: Db, x: NewMachine)
    requires TunnelsOk(db)
    ensures Follows(db, CreateRows(db, x).0)
  {
    if CreateRows(db, x).1.None? {
      var m, t := CreateAddsTwoRows(db, x);
      hide *;
      AddRowsFollows(db, x.machine, m, x.tunnel, t);
    }
  }

  lemma FinishFollows(db: Db, machine: Id, tunnel: Id, accountOk: bool)
    ensures Follows(db, FinishCreate(db, machine, tunnel, accountOk))
  {}

  lemma MapTunnelsFollows(db: Db, m: Id, f: TunnelStatus -> TunnelStatus)
    ensures Follows(db, MapTunnels(db, m, f))
  {}

  lemma SetMachineFollows(db: Db, id: Id, m: Machine)
    requires id in db.machines && Newer(db.machines[id], m)
    ensures Follows(db, SetMachine(db, id, m))
  {}

  lemma EnqueueFollows(db: Db, db': Db, m: Id, generation: nat, kinds: seq<CommandType>)
    requires Follows(db, db')
    ensures Follows(db, Enqueue(db', m, generation, kinds))
  {}

  lemma SwitchFollows(db: Db, id: Id, m: Machine, f: TunnelStatus -> TunnelStatus, kinds: seq<CommandType>)
    requires id in db.machines && Newer(db.machines[id], m)
    ensures Follows(db, Enqueue(MapTunnels(SetMachine(db, id, m), id, f), id, m.generation, kinds))
  {
    hide Follows, Enqueue, MapTunnels, SetMachine;
    SetMachineFollows(db, id, m);
    MapTunnelsFollows(SetMachine(db, id, m), id, f);
    FollowsTrans(db, SetMachine(db, id, m), MapTunnels(SetMachine(db, id, m), id, f));
    EnqueueFollows(db, MapTunnels(SetMachine(db, id, m), id, f), id, m.generation, kinds);
  }

  lemma RetireFollows(db: Db, id: Id, rows: seq<Id>, draws: seq<string>, saved: bool, fold: string -> string)
    requires TunnelsOk(db) && RowsOf(db, id, rows) && id in db.machines
    ensures Follows(db, SetDesired(db, id, Retired, rows, draws, saved, fold).0)
  {
    var db' := RetireRows(db, rows);
    RowsExist(db, id, rows);
    RetireRowsFollows(db, rows);
    RetireIs(db, id, rows, draws, saved, fold);
    hide SetDesired, TunnelsOk, RetireRows, PickRetiredSlug, Follows, SetMachine;
    var slug := PickRetiredSlug(db', id, db.machines[id].originalSlug, draws, fold);
    if slug.Some? && saved {
      var m := RetireMachine(db.machines[id], slug.value);
      SetMachineFollows(db', id, m);
      FollowsTrans(db, db', SetMachine(db', id, m));
    }
  }

  lemma RetireRowsFollows(db: Db, rows: seq<Id>)
    requires TunnelsOk(db) && forall i | 0 <= i < |rows| :: rows[i] in db.tunnels
    ensures Follows(db, RetireRows(db, rows)) && RetireRows(db, rows).machines == db.machines
  {
    hide TunnelsOk, RetireRows;
    RetireRowsWorks(db, rows);
  }

  lemma SetDesiredFollows(db: Db, id: Id, desired: Desired, rows: seq<Id>, draws: seq<string>, saved: bool,
      fold: string -> string)
    requires TunnelsOk(db) && RowsOf(db, id, rows)
    ensures Follows(db, SetDesired(db, id, desired, rows, draws, saved, fold).0)
  {
    SameFollows(db);
    if id in db.machines {
      hide Follows;
      if desired == Retired {
        RetireFollows(db, id, rows, draws, saved, fold);
      } else {
        SwitchIs(db, id, desired, rows, draws, saved, fold);
        hide SetDesired;
        SwitchFollows(db, id, SwitchMachine(db.machines[id], desired), SwitchTunnel(desired), SwitchCommands(desired));
      }
    }
  }

  lemma SameFollows(db: Db)
    ensures Follows(db, db)
  {}

  lemma ProbeFollows(db: Db, t: Id, ok: bool)
    ensures Follows(db, Probe(db, t, ok))
  {}

  lemma NextFollows(s: State, step: Step, fold: string -> string)
    requires Inv(s.db)
    ensures Follows(s.db, Next(s, step, fold).db)
  {
    InvHasTunnels(s.db);
    SameFollows(s.db);
    hide Inv, Follows, CreateRows, FinishCreate, SetDesired, ReleaseRows, TunnelsOk, MapTunnels, Enqueue, SetMachine,
         Probe;
    if Enabled(s, step) {
      match step
      case Create(j, x) => CreateFollows(s.db, x);
      case CreateEnd(j, accountOk) => FinishFollows(s.db, s.jobs[j].machine, s.jobs[j].tunnel, accountOk);
      case SetDesiredState(m, desired, rows, draws, saved) =>
        SetDesiredFollows(s.db, m, desired, rows, draws, saved, fold);
      case SetProcessTitle(m) =>
        if m in s.db.machines {
          SetMachineFollows(s.db, m, s.db.machines[m].(generation := s.db.machines[m].generation + 1));
        }
      case UpdateRead(j, m) =>
      case UpdateWrite(j) => EnqueueFollows(s.db, s.db, s.jobs[j].machine, s.jobs[j].generation, [UpdateAgent]);
      case HeartbeatTunnels(m) => MapTunnelsFollows(s.db, m, s => ProbedStatus(s, true));
      case ProbeTunnel(t, ok) => ProbeFollows(s.db, t, ok);
      case RecomputeRead(j, m, view) =>
      case RecomputeWrite(j) =>
        var job := s.jobs[j];
        if job.machine in s.db.machines {
          SetMachineFollows(s.db, job.machine,
            s.db.machines[job.machine].(observed := job.observed, shown := Effective(job.seen, job.observed)));
        }
      case ReleaseRetiredTunnels(rows) => ReleaseIsNoOp(s.db, rows);
    }
  }

  lemma NextJobs(s: State, step: Step, fold: string -> string)
    requires StateInv(s) && Follows(s.db, Next(s, step, fold).db)
    ensures JobsOk(Next(s, step, fold))
  {
    hide Inv, CreateRows, FinishCreate, SetDesired, ReleaseRetired, Heartbeat, Probe, WriteObserved, SetTitle,
         QueueUpdate,
         RowsOf, RetiredRows, Lasting;
  }

  lemma NextKeeps(s: State, step: Step, fold: string -> string)
    requires StateInv(s)
    ensures StateInv(Next(s, step, fold)) && Follows(s.db, Next(s, step, fold).db)
  {
    hide Inv, Next, Follows, JobsOk;
    NextInv(s, step, fold);
    NextFollows(s, step, fold);
    NextJobs(s, step, fold);
  }

  /** In every run from a store with hubs only: the UNIQUE columns stay distinct and no UPDATE that retires
      a tunnel is ever refused, live ports are in range and unreserved, slugs are valid and distinct, no
      command is ahead of its machine, and the tunnels of a machine that is to be down are down. */
  lemma {:induction false} EveryRunKeepsInv(hubs: map<Id, HubRow>, steps: seq<Step>, fold: string -> string)
    requires forall h | h in hubs :: hubs[h].portStart > 0
    ensures StateInv(Exec(Empty(hubs), steps, fold))
    decreases |steps|
  {
    if steps != [] {
      hide StateInv, Next;
      EveryRunKeepsInv(hubs, steps[..|steps| - 1], fold);
      NextKeeps(Exec(Empty(hubs), steps[..|steps| - 1], fold), steps[|steps| - 1], fold);
    }
  }

  /** Over any continuation of a good state: creation values of originals stay, released ports stay
      released under the same number, and generations only grow. */
  lemma {:induction false} EveryRunFollows(s: State, steps: seq<Step>, fold: string -> string)
    requires StateInv(s)
    ensures StateInv(Exec(s, steps, fold)) && Follows(s.db, Exec(s, steps, fold).db)
    decreases |steps|
  {
    hide StateInv, Next, Follows;
    if steps == [] {
      SameFollows(s.db);
    } else {
      var before := Exec(s, steps[..|steps| - 1], fold);
      EveryRunFollows(s, steps[..|steps| - 1], fold);
      NextKeeps(before, steps[|steps| - 1], fold);
      FollowsTrans(s.db, before.db, Exec(s, steps, fold).db);
    }
  }

  /** A successful state change raises the generation by one and queues only commands of that generation. */
  lemma ChangeRaisesGeneration(db: Db, id: Id, desired: Desired, rows: seq<Id>, draws: seq<string>, saved: bool,
      fold: string -> string)
    requires Inv(db) && RowsOf(db, id, rows) && Draws(draws)
    requires SetDesired(db, id, desired, rows, draws, saved, fold).1
    ensures var db' := SetDesired(db, id, desired, rows, draws, saved, fold).0;
            && id in db.machines && db'.machines[id].desired == desired
            && db'.machines[id].generation == db.machines[id].generation + 1
            && db.commands <= db'.commands
            && forall i | |db.commands| <= i < |db'.commands| :: db'.commands[i].machine == id
                 && db'.commands[i].generation == db'.machines[id].generation
  {
    hide Inv, RetireRows, PickRetiredSlug;
    if desired == Retired {
      RowsExist(db, id, rows);
      InvHasTunnels(db);
      RetireRowsWorks(db, rows);
    }
  }

  /** A retirement that succeeds gives back what the machine held: each of its live ports, and its slug
      unless the drawn one is the same. */
  lemma RetirementReleases(db: Db, id: Id, rows: seq<Id>, draws: seq<string>, saved: bool, fold: string -> string,
      t: Id)
    requires Inv(db) && RowsOf(db, id, rows) && Draws(draws)
    requires SetDesired(db, id, Retired, rows, draws, saved, fold).1
    requires t in db.tunnels && t in rows && db.tunnels[t].port > 0
    ensures var db' := SetDesired(db, id, Retired, rows, draws, saved, fold).0;
            && (forall other :: !PortTaken(db', db.tunnels[t].hub, db.tunnels[t].port, other))
            && id in db.machines && id in db'.machines && t in db'.tunnels
            && db'.tunnels[t].originalPort == Some(db.tunnels[t].port)
            && (db'.machines[id].slug != db.machines[id].slug ==>
                 forall other :: !SlugTaken(db', db.machines[id].slug, other))
  {
    var db1 := RetireRows(db, rows);
    RowsExist(db, id, rows);
    PortsMoveAway(db, rows, t);
    if id in db.machines {
      RetireIs(db, id, rows, draws, saved, fold);
      var slug := PickRetiredSlug(db1, id, db.machines[id].originalSlug, draws, fold);
      hide SetDesired, RetireRows, PickRetiredSlug, TunnelsOk, CommandsOk, DownIsDown, PortTaken;
      SamePortsTaken(db1, SetMachine(db1, id, RetireMachine(db.machines[id], slug.value)));
    }
  }

  lemma SamePortsTaken(db: Db, db': Db)
    requires db'.tunnels == db.tunnels
    ensures forall hub, port, other :: PortTaken(db', hub, port, other) == PortTaken(db, hub, port, other)
  {}

  lemma PortsMoveAway(db: Db, rows: seq<Id>, t: Id)
    requires TunnelsOk(db) && (forall i | 0 <= i < |rows| :: rows[i] in db.tunnels)
    requires t in rows && t in db.tunnels && db.tunnels[t].port > 0
    ensures var db1 := RetireRows(db, rows);
            && t in db1.tunnels && db1.tunnels[t].originalPort == Some(db.tunnels[t].port)
                 && db1.machines == db.machines
            && forall other :: !PortTaken(db1, db.tunnels[t].hub, db.tunnels[t].port, other)
  {
    hide RetireRows, TunnelsOk;
    RetireRowsWorks(db, rows);
    LivePortMovesAway(db, RetireRows(db, rows), t);
  }

  lemma LivePortMovesAway(db: Db, db1: Db, t: Id)
    requires TunnelsOk(db) && TunnelsOk(db1) && db1.tunnels.Keys == db.tunnels.Keys && db1.hubs == db.hubs
    requires forall u | u in db.tunnels :: Lasting(db.tunnels[u], db1.tunnels[u])
    requires t in db.tunnels && db.tunnels[t].port > 0 && db1.tunnels[t].port < 0
    ensures forall other :: !PortTaken(db1, db.tunnels[t].hub, db.tunnels[t].port, other)
    ensures db1.tunnels[t].originalPort == Some(db.tunnels[t].port)
  {
    assert RowOk(db, t, db.tunnels[t]);
    forall u | u in db1.tunnels && db1.tunnels[u].hub == db.tunnels[t].hub
      ensures db1.tunnels[u].port != db.tunnels[t].port
    {
      assert RowOk(db, u, db.tunnels[u]) && RowOk(db1, u, db1.tunnels[u]);
    }
  }

  // ---------- Released for good ----------

  /** The step retires the machine of tunnel t, whether or not it then finds a slug. */
  ghost predicate Retires(s: State, step: Step, t: Id) {
    Enabled(s, step) && step.SetDesiredState? && step.desired == Retired && step.m in s.db.machines && t in step.rows
  }

  /** Some step of the run does. */
  ghost predicate RetiredIn(s: State, steps: seq<Step>, fold: string -> string, t: Id)
    decreases |steps|
  {
    steps != [] &&
    (RetiredIn(s, steps[..|steps| - 1], fold, t) || Retires(Exec(s, steps[..|steps| - 1], fold), steps[|steps| - 1], t))
  }

  /** A tunnel has a live port after a step exactly when it had one, or is new, and was not retired. */
  lemma StepPort(s: State, step: Step, fold: string -> string, t: Id)
    requires Inv(s.db)
    ensures var db' := Next(s, step, fold).db;
            && (t in s.db.tunnels ==> t in db'.tunnels)
            && (t in db'.tunnels ==>
                  (db'.tunnels[t].port > 0 <==>
                    (t in s.db.tunnels ==> s.db.tunnels[t].port > 0) && !Retires(s, step, t)))
            && (t !in s.db.tunnels ==> !Retires(s, step, t))
  {
    InvHasTunnels(s.db);
    hide Inv, TunnelsOk, CreateRows, FinishCreate, SetDesired, ReleaseRetired, Heartbeat, Probe, WriteObserved,
         SetTitle,
         QueueUpdate;
    if Enabled(s, step) {
      if step.Create? {
        CreatePort(s.db, step.x, t);
      } else if step.CreateEnd? {
        FinishKeepsPorts(s.db, s.jobs[step.j].machine, s.jobs[step.j].tunnel, step.accountOk);
      } else if step.SetDesiredState? {
        SetDesiredPort(s.db, step.m, step.desired, step.rows, step.draws, step.saved, fold, t);
      } else {
        hide Next;
        OtherStepsKeepPorts(s, step, fold);
      }
    }
  }

  predicate SamePorts(db: Db, db': Db) {
    db'.tunnels.Keys == db.tunnels.Keys && forall t | t in db.tunnels :: db'.tunnels[t].port == db.tunnels[t].port
  }

  lemma OtherStepsKeepPorts(s: State, step: Step, fold: string -> string)
    requires TunnelsOk(s.db) && Enabled(s, step)
    requires !step.Create? && !step.CreateEnd? && !step.SetDesiredState?
    ensures SamePorts(s.db, Next(s, step, fold).db)
  {
    hide TunnelsOk, ReleaseRows;
    if step.ReleaseRetiredTunnels? {
      ReleaseIsNoOp(s.db, step.rows);
    }
  }

  lemma FinishKeepsPorts(db: Db, machine: Id, tunnel: Id, accountOk: bool)
    ensures SamePorts(db, FinishCreate(db, machine, tunnel, accountOk))
  {}

  lemma CreatePort(db: Db, x: NewMachine, t: Id)
    requires TunnelsOk(db)
    ensures var db' := CreateRows(db, x).0;
            && (t in db.tunnels ==> t in db'.tunnels && db'.tunnels[t].port == db.tunnels[t].port)
            && (t in db'.tunnels && t !in db.tunnels ==> db'.tunnels[t].port > 0)
  {
    if CreateRows(db, x).1.None? {
      hide CreateRows, TunnelsOk, LeastUsable, PortTaken, UserTaken, SlugTaken;
      var m', t' := CreateAddsTwoRows(db, x);
    }
  }

  lemma SetDesiredPort(db: Db, id: Id, desired: Desired, rows: seq<Id>, draws: seq<string>, saved: bool,
      fold: string -> string,
      t: Id)
    requires TunnelsOk(db) && RowsOf(db, id, rows)
    ensures var db' := SetDesired(db, id, desired, rows, draws, saved, fold).0;
            && (t in db.tunnels <==> t in db'.tunnels)
            && (t in db.tunnels ==>
                  (db'.tunnels[t].port > 0 <==>
                   db.tunnels[t].port > 0 && !(id in db.machines && desired == Retired && t in rows)))
  {
    if id in db.machines {
      if desired == Retired {
        hide TunnelsOk, RetireRows, PickRetiredSlug;
        RowsExist(db, id, rows);
        RetireRowsWorks(db, rows);
      } else {
        SwitchIs(db, id, desired, rows, draws, saved, fold);
        hide SetDesired;
      }
    }
  }

  /** In any continuation of a good state a tunnel has a live port exactly when it had one, or was created
      since, and none of the steps retired its machine. */
  lemma {:induction false} PortIsLiveUntilRetired(s: State, steps: seq<Step>, fold: string -> string, t: Id)
    requires StateInv(s)
    ensures var db' := Exec(s, steps, fold).db;
            && (t in db'.tunnels ==>
                  (db'.tunnels[t].port > 0 <==>
                    (t in s.db.tunnels ==> s.db.tunnels[t].port > 0) && !RetiredIn(s, steps, fold, t)))
            && (t !in db'.tunnels ==> t !in s.db.tunnels && !RetiredIn(s, steps, fold, t))
    decreases |steps|
  {
    hide Next, Retires, Inv;
    if steps != [] {
      var front := steps[..|steps| - 1];
      PortIsLiveUntilRetired(s, front, fold, t);
      EveryRunFollows(s, front, fold);
      StepPort(Exec(s, front, fold), steps[|steps| - 1], fold, t);
    }
  }

  // ---------- Down stays down ----------

  predicate Observes(step: Step) {
    step.HeartbeatTunnels? || step.ProbeTunnel? || step.RecomputeRead? || step.RecomputeWrite?
  }

  /** Down tunnels and what is desired are as they were. */
  ghost predicate DownUntouched(db: Db, db': Db) {
    && db'.tunnels.Keys == db.tunnels.Keys && db'.machines.Keys == db.machines.Keys
    && (forall t | t in db.tunnels && Down(db.tunnels[t].status) :: db'.tunnels[t] == db.tunnels[t])
    && (forall m | m in db.machines ::
          db'.machines[m].desired == db.machines[m].desired && db'.machines[m].generation == db.machines[m].generation)
  }

  /** No sequence of heartbeats, probes and recomputations changes a tunnel that is down, or any
      desired state or generation. */
  lemma {:induction false} ObservationsLeaveDownTunnels(s: State, steps: seq<Step>, fold: string -> string)
    requires forall i | 0 <= i < |steps| :: Observes(steps[i])
    ensures DownUntouched(s.db, Exec(s, steps, fold).db)
    decreases |steps|
  {
    if steps != [] {
      hide Next;
      ObservationsLeaveDownTunnels(s, steps[..|steps| - 1], fold);
      ObservationLeavesDown(Exec(s, steps[..|steps| - 1], fold), steps[|steps| - 1], fold);
    }
  }

  lemma ObservationLeavesDown(s: State, step: Step, fold: string -> string)
    requires Observes(step)
    ensures DownUntouched(s.db, Next(s, step, fold).db)
  {
    hide DownUntouched, Heartbeat, Probe, WriteObserved;
    UntouchedItself(s.db);
    match step
    case HeartbeatTunnels(m) => HeartbeatLeavesDown(s.db, m);
    case ProbeTunnel(t, ok) => ProbeLeavesDown(s.db, t, ok);
    case RecomputeRead(j, m, view) =>
    case RecomputeWrite(j) =>
      if Enabled(s, step) {
        WriteLeavesDown(s.db, s.jobs[j].machine, s.jobs[j].seen, s.jobs[j].observed);
      }
  }

  lemma UntouchedItself(db: Db)
    ensures DownUntouched(db, db)
  {}

  lemma HeartbeatLeavesDown(db: Db, m: Id)
    ensures DownUntouched(db, Heartbeat(db, m))
  {}

  lemma ProbeLeavesDown(db: Db, t: Id, ok: bool)
    ensures DownUntouched(db, Probe(db, t, ok))
  {}

  lemma WriteLeavesDown(db: Db, m: Id, seen: Desired, observed: Observed)
    ensures DownUntouched(db, WriteObserved(db, m, seen, observed))
  {}

  ghost predicate AllDisabled(db: Db, m: Id) {
    forall t | t in db.tunnels && db.tunnels[t].machine == m :: db.tunnels[t].status == TDisabled
  }

  /** The tunnels of a disabled or retiring machine are all 'disabled'. */
  ghost predicate DisabledIsDown(db: Db, m: Id) {
    m in db.machines && (db.machines[m].desired == Disabled || db.machines[m].desired == Retiring) ==>
      AllDisabled(db, m)
  }

  /** A retirement of a disabled or retiring machine with tunnels whose last UPDATE fails, or for which every
      slug drawn is taken. (If the source of random ids fails, there are fewer than twenty draws.) */
  ghost predicate FailedRetirement(s: State, step: Step, fold: string -> string, m: Id) {
    && Enabled(s, step) && step.SetDesiredState? && step.desired == Retired && step.m == m && step.rows != []
    && m in s.db.machines && (s.db.machines[m].desired == Disabled || s.db.machines[m].desired == Retiring)
    && (!step.saved || forall short | short in step.draws ::
         SlugTaken(s.db, RetiredCandidate(s.db.machines[m].originalSlug, short, fold), m))
  }

  /** The end of a CreateMachine whose system account could not be made, with the machine disabled or
      retiring by then. */
  ghost predicate FailedCreation(s: State, step: Step, m: Id) {
    && Enabled(s, step) && step.CreateEnd? && !step.accountOk
    && s.jobs[step.j].tunnel in s.db.tunnels && s.db.tunnels[s.jobs[step.j].tunnel].machine == m
    && m in s.db.machines && (s.db.machines[m].desired == Disabled || s.db.machines[m].desired == Retiring)
  }

  /** Every step keeps the tunnels of a disabled or retiring machine 'disabled', except exactly two: such a
      retirement, which has retired the tunnels and then leaves the machine as it was, and such a creation,
      which marks its tunnel 'failed'. */
  lemma OnlyFailuresUndisable(s: State, step: Step, fold: string -> string, m: Id)
    requires Inv(s.db) && DisabledIsDown(s.db, m)
    ensures DisabledIsDown(Next(s, step, fold).db, m) <==>
            !FailedRetirement(s, step, fold, m) && !FailedCreation(s, step, m)
  {
    InvHasTunnels(s.db);
    hide Inv, TunnelsOk;
    if Enabled(s, step) {
      if step.SetDesiredState? {
        hide SetDesired, RowsOf;
        if step.desired == Retired {
          RetireDown(s.db, step.m, step.rows, step.draws, step.saved, fold, m);
        } else {
          SwitchDown(s.db, step.m, step.desired, step.rows, step.draws, step.saved, fold, m);
        }
      } else if step.CreateEnd? {
        FinishDown(s.db, s.jobs[step.j].machine, s.jobs[step.j].tunnel, step.accountOk, m);
        hide DisabledIsDown, FinishCreate;
      } else {
        OtherStepsDown(s, step, fold, m);
      }
    }
  }

  lemma FinishDown(db: Db, machine: Id, tunnel: Id, accountOk: bool, m: Id)
    requires DisabledIsDown(db, m)
    ensures DisabledIsDown(FinishCreate(db, machine, tunnel, accountOk), m) <==>
            !(!accountOk && tunnel in db.tunnels && db.tunnels[tunnel].machine == m
              && m in db.machines && (db.machines[m].desired == Disabled || db.machines[m].desired == Retiring))
  {
    var db' := FinishCreate(db, machine, tunnel, accountOk);
    if !accountOk && tunnel in db.tunnels {
      assert db'.tunnels[tunnel].status == TFailed;
    }
  }

  lemma OtherStepsDown(s: State, step: Step, fold: string -> string, m: Id)
    requires TunnelsOk(s.db) && DisabledIsDown(s.db, m) && Enabled(s, step)
    requires !step.SetDesiredState? && !step.CreateEnd?
    ensures DisabledIsDown(Next(s, step, fold).db, m)
  {
    hide TunnelsOk, CreateRows, FinishCreate, SetDesired, ReleaseRows;
    match step
    case Create(j, x) => CreateDown(s.db, x, m);
    case ReleaseRetiredTunnels(rows) => ReleaseIsNoOp(s.db, rows);
    case _ =>
  }

  lemma CreateDown(db: Db, x: NewMachine, m: Id)
    requires TunnelsOk(db) && DisabledIsDown(db, m)
    ensures DisabledIsDown(CreateRows(db, x).0, m)
  {
    if CreateRows(db, x).1.None? {
      hide CreateRows, LeastUsable, PortTaken, UserTaken, SlugTaken;
      var m', t := CreateAddsTwoRows(db, x);
    }
  }

  lemma SwitchDown(db: Db, id: Id, desired: Desired, rows: seq<Id>, draws: seq<string>, saved: bool,
      fold: string -> string, m: Id)
    requires desired != Retired && DisabledIsDown(db, m)
    ensures DisabledIsDown(SetDesired(db, id, desired, rows, draws, saved, fold).0, m)
  {
    if id in db.machines {
      SwitchIs(db, id, desired, rows, draws, saved, fold);
      hide SetDesired;
    }
  }

  lemma RetireDown(db: Db, id: Id, rows: seq<Id>, draws: seq<string>, saved: bool, fold: string -> string, m: Id)
    requires TunnelsOk(db) && RowsOf(db, id, rows) && DisabledIsDown(db, m)
    ensures DisabledIsDown(SetDesired(db, id, Retired, rows, draws, saved, fold).0, m) <==>
            !(id == m && rows != [] && m in db.machines
              && (db.machines[m].desired == Disabled || db.machines[m].desired == Retiring)
              && (!saved || forall short | short in draws ::
                   SlugTaken(db, RetiredCandidate(db.machines[m].originalSlug, short, fold), m)))
  {
    if id in db.machines {
      var db1 := RetireRows(db, rows);
      RetireIs(db, id, rows, draws, saved, fold);
      RetireRowsDown(db, id, rows, m);
      hide SetDesired, TunnelsOk, RetireRows, PickRetiredSlug, RowsOf, SlugTaken, RetiredCandidate, AllDisabled;
      NoSlugExactly(db, db1, id, draws, fold);
      SameTunnelsSameDown(db1, SetDesired(db, id, Retired, rows, draws, saved, fold).0, m);
    }
  }

  lemma SameTunnelsSameDown(db: Db, db': Db, m: Id)
    ensures db'.tunnels == db.tunnels ==> AllDisabled(db', m) == AllDisabled(db, m)
  {}

  /** The search for a slug fails exactly when every candidate is taken, by the machines as they are. */
  lemma NoSlugExactly(db: Db, db': Db, id: Id, draws: seq<string>, fold: string -> string)
    requires id in db.machines && db'.machines == db.machines
    ensures PickRetiredSlug(db', id, db.machines[id].originalSlug, draws, fold).None? <==>
            forall short | short in draws ::
              SlugTaken(db, RetiredCandidate(db.machines[id].originalSlug, short, fold), id)
  {
    hide RetiredCandidate;
    assert forall slug :: SlugTaken(db', slug, id) == SlugTaken(db, slug, id);
  }

  lemma RetireRowsDown(db: Db, id: Id, rows: seq<Id>, m: Id)
    requires TunnelsOk(db) && RowsOf(db, id, rows)
    ensures var db' := RetireRows(db, rows);
            && db'.machines == db.machines
            && (id == m ==> (AllDisabled(db', m) <==> rows == []))
            && (id != m ==> (AllDisabled(db', m) <==> AllDisabled(db, m)))
  {
    hide TunnelsOk, RetireRows;
    RowsExist(db, id, rows);
    RetireRowsWorks(db, rows);
    if rows != [] {
      assert rows[0] in rows;
    }
  }

  /** Runs in which neither happens. */
  ghost predicate NothingUndisables(s: State, steps: seq<Step>, fold: string -> string, m: Id)
    decreases |steps|
  {
    steps == [] ||
    (NothingUndisables(s, steps[..|steps| - 1], fold, m) &&
     var before := Exec(s, steps[..|steps| - 1], fold);
     !FailedRetirement(before, steps[|steps| - 1], fold, m) && !FailedCreation(before, steps[|steps| - 1], m))
  }

  lemma {:induction false} DisabledStaysDown(hubs: map<Id, HubRow>, steps: seq<Step>, fold: string -> string, m: Id)
    requires forall h | h in hubs :: hubs[h].portStart > 0
    requires NothingUndisables(Empty(hubs), steps, fold, m)
    ensures DisabledIsDown(Exec(Empty(hubs), steps, fold).db, m)
    decreases |steps|
  {
    hide Inv, Next, FailedRetirement, FailedCreation;
    if steps != [] {
      DisabledStaysDown(hubs, steps[..|steps| - 1], fold, m);
      EveryRunKeepsInv(hubs, steps[..|steps| - 1], fold);
      OnlyFailuresUndisable(Exec(Empty(hubs), steps[..|steps| - 1], fold), steps[|steps| - 1], fold, m);
    }
  }

  // ---------- Status follows desire ----------

  /** Not a late write: of recomputeObserved for a machine that is to be down and was read in another desired
      state, or of CreateMachine for a machine that is to be down already. */
  ghost predicate Timely(s: State, step: Step) {
    Enabled(s, step) && (step.RecomputeWrite? || step.CreateEnd?) ==>
      var job := s.jobs[step.j];
      job.machine in s.db.machines && s.db.machines[job.machine].desired != Active ==>
        job.Observation? && job.seen == s.db.machines[job.machine].desired
  }

  /** Every step keeps the shown status in agreement with the desired state, except exactly a write that
      comes after the machine was taken down. */
  lemma AgreementIsKeptExactlyByTimelyWrites(s: State, step: Step, fold: string -> string)
    requires Inv(s.db) && StatusAgrees(s.db)
    ensures StatusAgrees(Next(s, step, fold).db) <==> Timely(s, step)
  {
    InvHasTunnels(s.db);
    hide Inv, CreateRows, FinishCreate, ReleaseRows, RetireRows, PickRetiredSlug, TunnelsOk;
    if Enabled(s, step) {
      match step
      case Create(j, x) => CreateAgrees(s.db, x);
      case CreateEnd(j, accountOk) => FinishAgrees(s.db, s.jobs[j].machine, s.jobs[j].tunnel, accountOk);
      case SetDesiredState(m, desired, rows, draws, saved) =>
        if desired == Retired {
          RetireAgrees(s.db, m, rows, draws, saved, fold);
        }
      case ReleaseRetiredTunnels(rows) => ReleaseIsNoOp(s.db, rows);
      case RecomputeWrite(j) => WriteAgrees(s.db, s.jobs[j]);
      case _ =>
    }
  }

  lemma CreateAgrees(db: Db, x: NewMachine)
    requires TunnelsOk(db) && StatusAgrees(db)
    ensures StatusAgrees(CreateRows(db, x).0)
  {
    if CreateRows(db, x).1.None? {
      hide CreateRows, TunnelsOk, LeastUsable, PortTaken, UserTaken, SlugTaken;
      var m, t := CreateAddsTwoRows(db, x);
    }
  }

  lemma RetireAgrees(db: Db, id: Id, rows: seq<Id>, draws: seq<string>, saved: bool, fold: string -> string)
    requires TunnelsOk(db) && StatusAgrees(db) && RowsOf(db, id, rows)
    ensures StatusAgrees(SetDesired(db, id, Retired, rows, draws, saved, fold).0)
  {
    hide TunnelsOk, RetireRows, PickRetiredSlug;
    RowsExist(db, id, rows);
    RetireRowsWorks(db, rows);
  }

  lemma FinishAgrees(db: Db, machine: Id, tunnel: Id, accountOk: bool)
    requires StatusAgrees(db)
    ensures StatusAgrees(FinishCreate(db, machine, tunnel, accountOk)) <==>
            (machine in db.machines ==> db.machines[machine].desired == Active)
  {
    var db' := FinishCreate(db, machine, tunnel, accountOk);
    if machine in db.machines {
      assert db'.machines[machine].desired == db.machines[machine].desired;
      assert db'.machines[machine].shown == if accountOk then Seen(Offline) else Failed;
    }
  }

  lemma WriteAgrees(db: Db, job: Job)
    requires StatusAgrees(db) && job.Observation?
    ensures StatusAgrees(WriteObserved(db, job.machine, job.seen, job.observed)) <==>
            (job.machine in db.machines ==>
              db.machines[job.machine].desired == Active || job.seen == db.machines[job.machine].desired)
  {
    var db' := WriteObserved(db, job.machine, job.seen, job.observed);
    if job.machine in db.machines {
      assert db'.machines[job.machine].shown == Effective(job.seen, job.observed);
    }
  }

  /** Runs in which every write is timely; a recomputeObserved run as one step always is. */
  ghost predicate AllTimely(s: State, steps: seq<Step>, fold: string -> string)
    decreases |steps|
  {
    steps == [] ||
    (AllTimely(s, steps[..|steps| - 1], fold) && Timely(Exec(s, steps[..|steps| - 1], fold), steps[|steps| - 1]))
  }

  lemma {:induction false} StatusAgreesInTimelyRuns(hubs: map<Id, HubRow>, steps: seq<Step>, fold: string -> string)
    requires forall h | h in hubs :: hubs[h].portStart > 0
    requires AllTimely(Empty(hubs), steps, fold)
    ensures StatusAgrees(Exec(Empty(hubs), steps, fold).db)
    decreases |steps|
  {
    hide Inv, Next, Timely;
    if steps != [] {
      var before := Exec(Empty(hubs), steps[..|steps| - 1], fold);
      StatusAgreesInTimelyRuns(hubs, steps[..|steps| - 1], fold);
      EveryRunKeepsInv(hubs, steps[..|steps| - 1], fold);
      AgreementIsKeptExactlyByTimelyWrites(before, steps[|steps| - 1], fold);
    }
  }

  // ---------- The SSH configuration ----------

  /** In every run: only desired-active machines are listed, under valid and distinct slugs, and a listed
      port is live, that is inside the hub's range and unreserved, exactly when no step of the run has
      retired the machine; otherwise it is negative. */
  lemma ListedEntries(hubs: map<Id, HubRow>, steps: seq<Step>, fold: string -> string, m: Id, t: Id)
    requires forall h | h in hubs :: hubs[h].portStart > 0
    requires Listed(Exec(Empty(hubs), steps, fold).db, m, t)
    ensures var db := Exec(Empty(hubs), steps, fold).db;
            && db.machines[m].desired == Active && ValidSlug(db.machines[m].slug)
            && (db.machines[m].observed == Online || db.machines[m].observed == Degraded)
            && (db.tunnels[t].status == TOnline || db.tunnels[t].status == TOffline)
            && (forall n, u | Listed(db, n, u) && n != m :: db.machines[n].slug != db.machines[m].slug)
            && db.tunnels[t].hub in db.hubs
            && if RetiredIn(Empty(hubs), steps, fold, t) then db.tunnels[t].port < 0
               else LivePort(db.hubs[db.tunnels[t].hub], db.tunnels[t].port)
  {
    hide Exec, RetiredIn, ValidSlug;
    EveryRunKeepsInv(hubs, [], fold);
    NoSteps(Empty(hubs), fold);
    EveryRunKeepsInv(hubs, steps, fold);
    PortIsLiveUntilRetired(Empty(hubs), steps, fold, t);
    assert RowOk(Exec(Empty(hubs), steps, fold).db, t, Exec(Empty(hubs), steps, fold).db.tunnels[t]);
  }

  predicate LivePort(hub: HubRow, port: int) {
    hub.portStart <= port <= hub.portEnd && !ReservedPort(port)
  }

  lemma NoSteps(s: State, fold: string -> string)
    ensures Exec(s, [], fold) == s
  {}

  /** Retired is not final: disabling and enabling a retired machine brings its tunnels back as offline, so
      after the next good observation it is listed with a port that is negative. */
  lemma RevivedMachineIsListedWithNegativePort(db: Db, m: Id, t: Id, rows: seq<Id>, fold: string -> string)
    requires Inv(db) && m in db.machines && db.machines[m].desired == Retired
    requires t in db.tunnels && db.tunnels[t].machine == m
    ensures var db1 := SetDesired(db, m, Disabled, rows, [], true, fold).0;
            var db2 := SetDesired(db1, m, Active, rows, [], true, fold).0;
            var db3 := WriteObserved(db2, m, Active, Degraded);
            Listed(db3, m, t) && db3.tunnels[t].port < 0
  {
    assert TunnelAgrees(Retired, db.tunnels[t]);
    assert RowOk(db, t, db.tunnels[t]);
  }

  // ---------- Migrating an older store ----------

  /** The UPDATE of one round of releaseRetiredTunnels is refused exactly when another tunnel of the hub
      already uses the name the row is to get. */
  lemma ReleaseRowWorks(db: Db, id: Id)
    requires UniqueRows(db) && id in db.tunnels
    ensures var (db', ok) := ReleaseRow(db, id);
            var t := db.tunnels[id];
            && (ok <==> !UserTaken(db, t.hub, RetiredUser(id, t.user), id))
            && (!ok ==> db' == db)
            && (ok ==> UniqueRows(db') && db' == db.(tunnels := db.tunnels[id := db'.tunnels[id]]))
            && (ok ==> Released(id, t, db'.tunnels[id]))
  {
    var t := db.tunnels[id];
    var port := if t.port > 0 then NextRetiredPort(db, t.hub) else t.port;
    var t' := t.(user := RetiredUser(id, t.user), port := port);
    assert !PortTaken(db, t.hub, port, id);
    assert t.user == t'.user ==> !UserTaken(db, t.hub, t.user, id);
    assert db.tunnels[id := t] == db.tunnels;
    if UpdateTunnel(db, id, t').1 {
      UpdateKeepsUnique(db, id, t');
    }
    hide UniqueRows, PortTaken, UserTaken, NextRetiredPort;
  }

  /** How a retired row of an older store is to come out. */
  predicate Released(id: Id, t: Tunnel, t': Tunnel) {
    && t' == t.(user := RetiredUser(id, t.user), port := t'.port)
    && t'.port <= 0 && (t.port <= 0 ==> t'.port == t.port)
  }

  /** No other tunnel of the hub uses the name a retired row is to get. */
  predicate NameFree(db: Db, id: Id)
    requires id in db.tunnels
  {
    !UserTaken(db, db.tunnels[id].hub, RetiredUser(id, db.tunnels[id].user), id)
  }

  predicate NamesFree(db: Db, rows: seq<Id>)
    requires forall i | 0 <= i < |rows| :: rows[i] in db.tunnels
  {
    forall i | 0 <= i < |rows| :: NameFree(db, rows[i])
  }

  predicate DistinctRows(db: Db, rows: seq<Id>) {
    && (forall i | 0 <= i < |rows| :: rows[i] in db.tunnels)
    && (forall i, j | 0 <= i < j < |rows| :: rows[i] != rows[j])
  }

  /** The store after the rounds for `rows`: a row is released if the names of all rows up to it were free to
      begin with, and is as it was otherwise; so is a tunnel of none of the rows. */
  predicate ReleasedUpToATakenName(db: Db, db': Db, rows: seq<Id>)
    requires DistinctRows(db, rows)
  {
    && db'.tunnels.Keys == db.tunnels.Keys
    && (forall i | 0 <= i < |rows| ::
          if NamesFree(db, rows[..i + 1]) then Released(rows[i], db.tunnels[rows[i]], db'.tunnels[rows[i]])
          else db'.tunnels[rows[i]] == db.tunnels[rows[i]])
    && (forall t | t in db.tunnels && t !in rows :: db'.tunnels[t] == db.tunnels[t])
  }

  /** The loop of the migration goes through if and only if the name of every row is free in the store it
      starts from, and otherwise stops at the first name that is taken. */
  lemma {:induction false} ReleaseRowsWorks(db: Db, rows: seq<Id>)
    requires UniqueRows(db) && DistinctRows(db, rows)
    ensures var (db', ok) := ReleaseRows(db, rows);
            && (ok <==> NamesFree(db, rows)) && UniqueRows(db') && ReleasedUpToATakenName(db, db', rows)
    decreases |rows|
  {
    if rows != [] {
      var front, id := rows[..|rows| - 1], rows[|rows| - 1];
      assert rows == front + [id];
      ReleaseRowsWorks(db, front);
      var (db', ok) := ReleaseRows(db, front);
      hide ReleaseRow, UniqueRows, NameFree, Released;
      if ok {
        NameFreeStill(db, db', front, id);
        ReleaseRowWorks(db', id);
        hide ReleaseRows;
        OneMoreRow(db, db', ReleaseRow(db', id).0, front, id);
      } else {
        OneMoreRow(db, db', db', front, id);
      }
    }
  }

  lemma OneMoreRow(db: Db, db': Db, db'': Db, front: seq<Id>, id: Id)
    requires DistinctRows(db, front) && ReleasedUpToATakenName(db, db', front)
    requires id in db.tunnels && id !in front
    requires db''.tunnels.Keys == db'.tunnels.Keys && forall t | t in db'.tunnels && t != id ::
             db''.tunnels[t] == db'.tunnels[t]
    requires if NamesFree(db, front + [id]) then Released(id, db.tunnels[id], db''.tunnels[id])
             else db''.tunnels[id] == db.tunnels[id]
    ensures DistinctRows(db, front + [id]) && ReleasedUpToATakenName(db, db'', front + [id])
  {
    hide NameFree, Released, NamesFree;
    var rows := front + [id];
    forall i | 0 <= i < |rows|
      ensures if NamesFree(db, rows[..i + 1]) then Released(rows[i], db.tunnels[rows[i]], db''.tunnels[rows[i]])
              else db''.tunnels[rows[i]] == db.tunnels[rows[i]]
    {
      if i < |front| {
        assert rows[..i + 1] == front[..i + 1];
      } else {
        assert rows[..i + 1] == rows;
      }
    }
  }

  /** Rounds for other rows with free names leave a name as free as it was. */
  lemma NameFreeStill(db: Db, db': Db, front: seq<Id>, id: Id)
    requires DistinctRows(db, front) && NamesFree(db, front) && ReleasedUpToATakenName(db, db', front)
    requires id in db.tunnels && id !in front
    ensures NameFree(db', id) <==> NameFree(db, id)
  {
    var user := RetiredUser(id, db.tunnels[id].user);
    assert db'.tunnels[id] == db.tunnels[id];
    forall u | u in db.tunnels && u != id && db.tunnels[u].hub == db.tunnels[id].hub
      ensures db'.tunnels[u].hub == db.tunnels[u].hub
      ensures db'.tunnels[u].user == user <==> db.tunnels[u].user == user
    {
      if u in front {
        var i :| 0 <= i < |front| && front[i] == u;
        assert NameFree(db, u) && NamesFree(db, front[..i + 1]);
        assert Released(u, db.tunnels[u], db'.tunnels[u]);
        RenamedApart(db, u, id);
      }
    }
  }

  lemma RenamedApart(db: Db, u: Id, id: Id)
    requires u in db.tunnels && id in db.tunnels && u != id && db.tunnels[u].hub == db.tunnels[id].hub
    requires NameFree(db, u)
    ensures var user := RetiredUser(id, db.tunnels[id].user);
            RetiredUser(u, db.tunnels[u].user) == user <==> db.tunnels[u].user == user
  {
    RetiredUsersDiffer(id, u);
    var user := RetiredUser(id, db.tunnels[id].user);
    assert HasPrefix(user, RETIRED_PREFIX);
    assert db.tunnels[id].user != RetiredUser(u, db.tunnels[u].user);
  }

  lemma FillKeepsNames(db: Db, rows: seq<Id>)
    requires UniqueRows(db) && DistinctRows(db, rows)
    ensures var filled := FillOriginals(db);
            UniqueRows(filled) && DistinctRows(filled, rows) && (NamesFree(filled, rows) <==> NamesFree(db, rows))
  {
    var filled := FillOriginals(db);
    forall id | id in db.tunnels
      ensures NameFree(filled, id) <==> NameFree(db, id)
    {
      var hub, user := db.tunnels[id].hub, RetiredUser(id, db.tunnels[id].user);
      assert forall u | u in db.tunnels ::
          filled.tunnels[u].hub == db.tunnels[u].hub && filled.tunnels[u].user == db.tunnels[u].user;
      assert UserTaken(filled, hub, user, id) <==> UserTaken(db, hub, user, id);
    }
  }

  /** On any older store with distinct rows, migration records the originals and goes through if and only if
      the name of every retired tunnel is free. Then the port and the name of every retired tunnel are
      released. It keeps the rows distinct and changes no other row in any case. */
  lemma MigrationReleasesRetiredTunnels(db: Db, rows: seq<Id>)
    requires UniqueRows(db) && RetiredRows(db, rows)
    ensures var (db', ok) := ReleaseRetired(db, rows);
            && (ok <==> forall id | id in db.tunnels && db.tunnels[id].status == TRetired :: NameFree(db, id))
            && UniqueRows(db') && db'.tunnels.Keys == db.tunnels.Keys
            && forall id | id in db.tunnels ::
                 var t, t' := db.tunnels[id], db'.tunnels[id];
                 && t'.originalUser == OrElse(t.originalUser, t.user)
                 && t'.originalPort == OrElse(t.originalPort, t.port)
                 && t'.status == t.status && t'.machine == t.machine && t'.hub == t.hub
                 && (t.status == TRetired && ok ==>
                       t'.port <= 0 && t'.user == if "retired-" <= t.user then t.user else "retired-" + id)
                 && (t.status != TRetired ==> t'.port == t.port && t'.user == t.user)
  {
    FilledIs(db, rows);
    EveryRetiredName(db, rows);
    FillKeepsNames(db, rows);
    hide FillOriginals, ReleaseRows, UniqueRows, NamesFree, NameFree, Released, ReleasedUpToATakenName, DistinctRows,
         RetiredRows;
    ReleaseRowsWorks(FillOriginals(db), rows);
    RetiredComeOut(FillOriginals(db), ReleaseRows(FillOriginals(db), rows).0, rows);
  }

  lemma FilledIs(db: Db, rows: seq<Id>)
    requires RetiredRows(db, rows)
    ensures var filled := FillOriginals(db);
            && DistinctRows(db, rows) && RetiredRows(filled, rows) && filled.tunnels.Keys == db.tunnels.Keys
            && forall id | id in db.tunnels ::
                 var t := db.tunnels[id];
                 filled.tunnels[id] == t.(originalUser := OrElse(t.originalUser, t.user),
                                          originalPort := OrElse(t.originalPort, t.port))
  {
    assert forall i | 0 <= i < |rows| :: rows[i] in rows;
  }

  lemma EveryRetiredName(db: Db, rows: seq<Id>)
    requires RetiredRows(db, rows) && DistinctRows(db, rows)
    ensures NamesFree(db, rows) <==>
            forall id | id in db.tunnels && db.tunnels[id].status == TRetired :: NameFree(db, id)
  {
    hide NameFree;
    assert forall i | 0 <= i < |rows| :: rows[i] in rows;
  }

  /** What the loop's result says of each tunnel, in or out of the rows. */
  lemma RetiredComeOut(db: Db, db': Db, rows: seq<Id>)
    requires RetiredRows(db, rows) && DistinctRows(db, rows) && ReleasedUpToATakenName(db, db', rows)
    ensures forall id | id in db.tunnels ::
              var t, t' := db.tunnels[id], db'.tunnels[id];
              && t'.originalUser == t.originalUser && t'.originalPort == t.originalPort
              && t'.status == t.status && t'.machine == t.machine && t'.hub == t.hub
              && (t.status == TRetired && NamesFree(db, rows) ==>
                    t'.port <= 0 && t'.user == if "retired-" <= t.user then t.user else "retired-" + id)
              && (t.status != TRetired ==> t'.port == t.port && t'.user == t.user)
  {
    hide NameFree;
    forall id | id in db.tunnels && db.tunnels[id].status == TRetired
      ensures Released(id, db.tunnels[id], db'.tunnels[id])
              || (!NamesFree(db, rows) && db'.tunnels[id] == db.tunnels[id])
    {
      assert id in rows;
      var i :| 0 <= i < |rows| && rows[i] == id;
      assert NamesFree(db, rows) ==> NamesFree(db, rows[..i + 1]);
    }
  }

  // ---------- The steps one by one ----------

  /** A step that keeps the invariant and everything that lasts. */
  ghost predicate Kept(db: Db, db': Db) {
    Inv(db) ==> Inv(db') && Follows(db, db')
  }

  lemma CreateKept(db: Db, x: NewMachine)
    ensures Kept(db, CreateRows(db, x).0)
  {
    if Inv(db) {
      hide CreateRows, Follows;
      CreateInv(db, x);
      CreateFollows(db, x);
    }
  }

  lemma FinishKept(db: Db, machine: Id, tunnel: Id, accountOk: bool)
    ensures Kept(db, FinishCreate(db, machine, tunnel, accountOk))
  {
    if Inv(db) {
      hide Inv, FinishCreate, Follows;
      FinishInv(db, machine, tunnel, accountOk);
      FinishFollows(db, machine, tunnel, accountOk);
    }
  }

  lemma KeptTrans(a: Db, b: Db, c: Db)
    requires Kept(a, b) && Kept(b, c)
    ensures Kept(a, c)
  {
    if Inv(a) {
      FollowsTrans(a, b, c);
    }
  }

  lemma SetDesiredKept(db: Db, id: Id, desired: Desired, rows: seq<Id>, draws: seq<string>, saved: bool,
      fold: string -> string)
    requires RowsOf(db, id, rows) && Draws(draws)
    ensures Kept(db, SetDesired(db, id, desired, rows, draws, saved, fold).0)
  {
    if Inv(db) {
      hide SetDesired, Follows;
      SetDesiredInv(db, id, desired, rows, draws, saved, fold);
      SetDesiredFollows(db, id, desired, rows, draws, saved, fold);
    }
  }

  lemma HeartbeatKept(db: Db, m: Id)
    ensures Kept(db, Heartbeat(db, m))
  {
    if Inv(db) {
      HeartbeatInv(db, m);
      MapTunnelsFollows(db, m, s => ProbedStatus(s, true));
      hide Inv, Follows, MapTunnels;
    }
  }

  lemma ProbeKept(db: Db, t: Id, ok: bool)
    ensures Kept(db, Probe(db, t, ok))
  {
    if Inv(db) {
      hide Inv, Follows, Probe;
      ProbeInv(db, t, ok);
      ProbeFollows(db, t, ok);
    }
  }

  lemma WriteKept(db: Db, id: Id, seen: Desired, observed: Observed)
    ensures Kept(db, WriteObserved(db, id, seen, observed))
  {
    SameFollows(db);
    if Inv(db) && id in db.machines {
      hide Inv, Follows, SetMachine;
      var m := db.machines[id].(observed := observed, shown := Effective(seen, observed));
      MachineOnlyInv(db, id, m);
      SetMachineFollows(db, id, m);
    }
  }

  lemma ReleaseKept(db: Db, rows: seq<Id>)
    requires RetiredRows(db, rows)
    ensures Kept(db, ReleaseRetired(db, rows).0)
  {
    if Inv(db) {
      hide ReleaseRows, Follows;
      ReleaseIsNoOp(db, rows);
      SameFollows(db);
    }
  }
}
