/** The hub's machines and tunnels (provisioner.go, db.go, api.go): port allocation, desired, shown and
    observed state, retirement. The tables are maps, and a SQL statement is one step on them. */
module Hub {
  import opened Options
  import opened Slug

  type Id = string

  datatype Desired = Active | Disabled | Retiring | Retired

  datatype Observed = Unknown | Online | Degraded | Offline | Gone

  /** machines.status: a provisioning phase, an observed state, or the name of a desired state. */
  datatype Shown = Provisioning | Failed | Seen(observed: Observed) | Wanted(desired: Desired)

  datatype TunnelStatus = TOnline | TOffline | TDisabled | TRetired | TFailed

  datatype Machine = Machine(slug: string, originalSlug: string, shown: Shown, desired: Desired, observed: Observed,
      generation: nat)

  /** A NULL or empty original column is None. */
  datatype Tunnel = Tunnel(machine: Id, hub: Id, user: string, originalUser: Option<string>,
                           port: int, originalPort: Option<int>, status: TunnelStatus)

  datatype HubRow = HubRow(portStart: int, portEnd: int)

  datatype CommandType = StartTunnel | StopTunnel | SyncKeys | Uninstall | UpdateAgent

  datatype Command = Command(machine: Id, generation: nat, kind: CommandType)

  datatype Db = Db(hubs: map<Id, HubRow>, machines: map<Id, Machine>, tunnels: map<Id, Tunnel>, commands: seq<Command>)

  // ---------- Ports ----------

  predicate ReservedPort(p: int) {
    p == 9300 || p == 9401 || p == 9443 || 9163 <= p <= 9171
  }

  /** The SELECT of allocatePortTx. */
  predicate Used(db: Db, hub: Id, p: int) {
    exists t :: t in db.tunnels && db.tunnels[t].hub == hub && db.tunnels[t].status != TRetired
      && db.tunnels[t].port == p
  }

  predicate Usable(db: Db, hub: Id, listening: set<int>, p: int) {
    !Used(db, hub, p) && !ReservedPort(p) && p !in listening
  }

  /** The least usable port from lo to hi. */
  function LeastUsable(db: Db, hub: Id, listening: set<int>, lo: int, hi: int): (r: Option<int>)
    ensures r.Some? ==> lo <= r.value <= hi && Usable(db, hub, listening, r.value)
    ensures r.Some? ==> forall p | lo <= p < r.value :: !Usable(db, hub, listening, p)
    ensures r.None? ==> forall p | lo <= p <= hi :: !Usable(db, hub, listening, p)
    decreases hi - lo + 1
  {
    if lo > hi then None
    else if Usable(db, hub, listening, lo) then Some(lo)
    else LeastUsable(db, hub, listening, lo + 1, hi)
  }

  // ---------- The UNIQUE constraints ----------

  predicate PortTaken(db: Db, hub: Id, p: int, besides: Id) {
    exists t :: t in db.tunnels && t != besides && db.tunnels[t].hub == hub && db.tunnels[t].port == p
  }

  predicate UserTaken(db: Db, hub: Id, u: string, besides: Id) {
    exists t :: t in db.tunnels && t != besides && db.tunnels[t].hub == hub && db.tunnels[t].user == u
  }

  predicate SlugTaken(db: Db, slug: string, besides: Id) {
    exists m :: m in db.machines && m != besides && db.machines[m].slug == slug
  }

  // ---------- CreateMachine ----------

  const LIVE_PREFIX := "rt-"
  const RETIRED_PREFIX := "retired-"

  /** What CreateMachine is given and draws: identifiers, the short id, the ports something listens on,
      and whether the system account can be made. */
  datatype NewMachine = NewMachine(machine: Id, tunnel: Id, slug: string, hub: Id, short: string, listening: set<int>,
      accountOk: bool)

  datatype CreateError = BadSlug | NoHub | NoPort | Conflict | AccountFailed

  function InsertBoth(db: Db, x: NewMachine, port: int): Db {
    var user := LIVE_PREFIX + x.short;
    db.(machines := db.machines[x.machine := Machine(x.slug, x.slug, Provisioning, Active, Unknown, 1)],
        tunnels := db.tunnels[x.tunnel := Tunnel(x.machine, x.hub, user, Some(user), port, Some(port), TOffline)])
  }

  /** The transaction of CreateMachine. */
  function CreateRows(db: Db, x: NewMachine): (Db, Option<CreateError>) {
    if !ValidSlug(x.slug) then (db, Some(BadSlug))
    else if x.hub !in db.hubs then (db, Some(NoHub))
    else
      var port := LeastUsable(db, x.hub, x.listening, db.hubs[x.hub].portStart, db.hubs[x.hub].portEnd);
      if port.None? then (db, Some(NoPort))
      else if x.machine in db.machines || SlugTaken(db, x.slug, x.machine) then (db, Some(Conflict))
      else if x.tunnel in db.tunnels || PortTaken(db, x.hub, port.value, x.tunnel)
        || UserTaken(db, x.hub, LIVE_PREFIX + x.short, x.tunnel) then
        (db, Some(Conflict))
      else (InsertBoth(db, x, port.value), None)
  }

  /** Its UPDATEs once the system account is made, or could not be made. They check nothing. */
  function FinishCreate(db: Db, machine: Id, tunnel: Id, accountOk: bool): Db {
    var db' := FinishMachine(db, machine, accountOk);
    if accountOk then db' else FailTunnel(db', tunnel)
  }

  function FinishMachine(db: Db, machine: Id, accountOk: bool): Db {
    if machine !in db.machines then db
    else
      var m := db.machines[machine];
      SetMachine(db, machine, if accountOk then m.(shown := Seen(Offline), observed := Offline)
                              else m.(shown := Failed))
  }

  function FailTunnel(db: Db, tunnel: Id): Db {
    if tunnel !in db.tunnels then db
    else db.(tunnels := db.tunnels[tunnel := db.tunnels[tunnel].(status := TFailed)])
  }

  function CreateMachine(db: Db, x: NewMachine): (Db, Option<CreateError>) {
    var (db', err) := CreateRows(db, x);
    if err.Some? then (db', err)
    else (FinishCreate(db', x.machine, x.tunnel, x.accountOk), if x.accountOk then None else Some(AccountFailed))
  }

  // ---------- Retiring a tunnel ----------

  predicate HasPrefix(s: string, prefix: string) {
    prefix <= s
  }

  function RetiredUser(t: Id, user: string): string {
    if HasPrefix(user, RETIRED_PREFIX) then user else RETIRED_PREFIX + t
  }

  function NegativePorts(db: Db, hub: Id): set<int> {
    set t | t in db.tunnels && db.tunnels[t].hub == hub && db.tunnels[t].port < 0 :: db.tunnels[t].port
  }

  lemma NoMember(s: set<int>)
    requires forall x :: x !in s
    ensures s == {}
  {
    var e: set<int> := {};
    assert forall x :: x in s <==> x in e;
    assert s == e;
  }

  lemma HasMember(s: set<int>)
    requires s != {}
    ensures exists x :: x in s
  {
    if !(exists x :: x in s) {
      NoMember(s);
    }
  }

  /** The least of a set of negative numbers, 0 if there is none. */
  ghost function Least(s: set<int>): (r: int)
    ensures s == {} ==> r == 0
    ensures s != {} && (forall x | x in s :: x < 0) ==> r in s
    ensures forall x | x in s :: r <= x
    ensures r <= 0
  {
    if s == {} then 0
    else
      HasMember(s);
      var x :| x in s;
      var rest := Least(s - {x});
      assert forall y | y in s :: y == x || y in s - {x};
      if x < rest then x else rest
  }

  /** SELECT MIN(remote_port) WHERE remote_port<0, less one. */
  ghost function NextRetiredPort(db: Db, hub: Id): (p: int)
    ensures p < 0
    ensures forall t | t in db.tunnels && db.tunnels[t].hub == hub :: db.tunnels[t].port < 0 ==> p < db.tunnels[t].port
  {
    assert forall t | t in db.tunnels && db.tunnels[t].hub == hub && db.tunnels[t].port < 0 ::
           db.tunnels[t].port in NegativePorts(db, hub);
    Least(NegativePorts(db, hub)) - 1
  }

  /** An UPDATE of one tunnel row, refused when a UNIQUE constraint would break. */
  function UpdateTunnel(db: Db, id: Id, t: Tunnel): (Db, bool) {
    if PortTaken(db, t.hub, t.port, id) || UserTaken(db, t.hub, t.user, id) then (db, false)
    else (db.(tunnels := db.tunnels[id := t]), true)
  }

  function OrElse<T>(o: Option<T>, v: T): Option<T> {
    if o.Some? then o else Some(v)
  }

  /** retireTunnelRow. Its error is ignored by the caller. */
  ghost function RetireRow(db: Db, id: Id): (Db, bool)
    requires id in db.tunnels
  {
    var t := db.tunnels[id];
    var port := if t.port > 0 then NextRetiredPort(db, t.hub) else t.port;
    UpdateTunnel(db, id, t.(status := TRetired, user := RetiredUser(id, t.user), port := port,
                            originalUser := OrElse(t.originalUser, t.user),
                            originalPort := OrElse(t.originalPort, t.port)))
  }

  /** The retirement loop over the rows a query returned. */
  ghost function RetireRows(db: Db, rows: seq<Id>): Db
    decreases |rows|
  {
    if rows == [] then db
    else
      var db' := RetireRows(db, rows[..|rows| - 1]);
      var id := rows[|rows| - 1];
      if id in db'.tunnels then RetireRow(db', id).0 else db'
  }

  /** A query for the tunnels of a machine returns each of them once, in some order. */
  ghost predicate RowsOf(db: Db, m: Id, rows: seq<Id>) {
    && (forall t :: t in rows <==> t in db.tunnels && db.tunnels[t].machine == m)
    && (forall i, j | 0 <= i < j < |rows| :: rows[i] != rows[j])
  }

  // ---------- SetDesiredState ----------

  function MapTunnels(db: Db, m: Id, f: TunnelStatus -> TunnelStatus): Db {
    db.(tunnels := map t | t in db.tunnels ::
          if db.tunnels[t].machine == m then db.tunnels[t].(status := f(db.tunnels[t].status)) else db.tunnels[t])
  }

  function SetMachine(db: Db, id: Id, m: Machine): Db {
    db.(machines := db.machines[id := m])
  }

  function Enqueue(db: Db, m: Id, generation: nat, kinds: seq<CommandType>): Db {
    db.(commands := db.commands + seq(|kinds|, i requires 0 <= i < |kinds| => Command(m, generation, kinds[i])))
  }

  const RETIRED_SLUG_ATTEMPTS := 20

  /** retiredSlug: the first of at most twenty draws whose candidate no other machine has. */
  function PickRetiredSlug(db: Db, id: Id, original: string, draws: seq<string>,
      fold: string -> string): (r: Option<string>)
    ensures r.Some? ==> !SlugTaken(db, r.value, id)
    ensures r.Some? ==> exists short :: short in draws && r.value == RetiredCandidate(original, short, fold)
    ensures r.None? ==> forall short | short in draws :: SlugTaken(db, RetiredCandidate(original, short, fold), id)
  {
    if draws == [] then None
    else
      var candidate := RetiredCandidate(original, draws[0], fold);
      if !SlugTaken(db, candidate, id) then Some(candidate) else PickRetiredSlug(db, id, original, draws[1..], fold)
  }

  predicate Draws(draws: seq<string>) {
    |draws| <= RETIRED_SLUG_ATTEMPTS && forall i | 0 <= i < |draws| :: ShortId(draws[i])
  }

  function DownStatus(s: TunnelStatus): TunnelStatus {
    TDisabled
  }

  function UpStatus(s: TunnelStatus): TunnelStatus {
    if s == TDisabled then TOffline else s
  }

  /** The machine row, its tunnels and the commands when it is enabled, disabled or removed. */
  function SwitchMachine(m: Machine, desired: Desired): Machine {
    var seen := if m.observed == Online then Seen(Online) else Seen(Offline);
    var shown := if desired == Active then seen else Wanted(desired);
    m.(desired := desired, generation := m.generation + 1, shown := shown)
  }

  function SwitchTunnel(desired: Desired): TunnelStatus -> TunnelStatus {
    if desired == Active then UpStatus else DownStatus
  }

  function SwitchCommands(desired: Desired): seq<CommandType> {
    match desired
    case Active => [SyncKeys, StartTunnel]
    case Disabled => [StopTunnel, SyncKeys]
    case _ => [Uninstall]
  }

  function RetireMachine(m: Machine, slug: string): Machine {
    m.(slug := slug, desired := Retired, generation := m.generation + 1, shown := Wanted(Retired))
  }

  /** `rows` are the machine's tunnels as queried, `draws` the short ids drawn for a retired slug, and
      `saved` whether the last UPDATE of a retirement goes through. False: nothing was promised to the
      caller (no such machine, no slug found, or not saved). */
  ghost function SetDesired(db: Db, id: Id, desired: Desired, rows: seq<Id>, draws: seq<string>, saved: bool,
      fold: string -> string): (Db, bool) {
    if id !in db.machines then (db, false)
    else if desired == Retired then
      var m, db' := db.machines[id], RetireRows(db, rows);
      var slug := PickRetiredSlug(db', id, m.originalSlug, draws, fold);
      if slug.None? || !saved then (db', false) else (SetMachine(db', id, RetireMachine(m, slug.value)), true)
    else
      var m := SwitchMachine(db.machines[id], desired);
      var db' := MapTunnels(SetMachine(db, id, m), id, SwitchTunnel(desired));
      (Enqueue(db', id, m.generation, SwitchCommands(desired)), true)
  }

  // ---------- Observations ----------

  /** What recomputeObserved reads beside the machine row. */
  datatype View = View(heartbeat: bool, stale: bool, agentConnected: bool, sshHealthy: bool, reachable: bool,
      unreachable: bool)

  function ComputeObserved(v: View): Observed {
    if v.heartbeat then
      if v.stale && v.reachable then Degraded
      else if v.stale && v.unreachable then Gone
      else if v.stale then Offline
      else if v.agentConnected && v.reachable && v.sshHealthy then Online
      else if v.agentConnected || v.reachable then Degraded
      else Offline
    else if v.reachable then Degraded
    else Unknown
  }

  function Effective(desired: Desired, observed: Observed): Shown {
    if desired != Active then Wanted(desired) else Seen(observed)
  }

  /** The final UPDATE of recomputeObserved, with the desired state its first query saw. */
  function WriteObserved(db: Db, id: Id, seen: Desired, observed: Observed): Db {
    if id !in db.machines then db
    else SetMachine(db, id, db.machines[id].(observed := observed, shown := Effective(seen, observed)))
  }

  predicate Down(s: TunnelStatus) {
    s == TDisabled || s == TRetired || s == TFailed
  }

  function ProbedStatus(s: TunnelStatus, ok: bool): TunnelStatus {
    if Down(s) then s else if ok then TOnline else TOffline
  }

  /** The tunnel UPDATE of RunHealthCheck, guarded by the status at that moment. */
  function Probe(db: Db, t: Id, ok: bool): Db {
    if t !in db.tunnels then db
    else db.(tunnels := db.tunnels[t := db.tunnels[t].(status := ProbedStatus(db.tunnels[t].status, ok))])
  }

  /** The tunnel UPDATE of handleAgentHeartbeat. */
  function Heartbeat(db: Db, m: Id): Db {
    MapTunnels(db, m, s => ProbedStatus(s, true))
  }

  /** SetProcessTitleConfig raises the generation and leaves the states alone. */
  function SetTitle(db: Db, id: Id): Db {
    if id !in db.machines then db
    else SetMachine(db, id, db.machines[id].(generation := db.machines[id].generation + 1))
  }

  /** queueAgentUpdate, with the generation of an earlier read. */
  function QueueUpdate(db: Db, id: Id, generation: nat): Db {
    Enqueue(db, id, generation, [UpdateAgent])
  }

  // ---------- releaseRetiredTunnels ----------

  function FillOriginals(db: Db): Db {
    db.(tunnels := map t | t in db.tunnels ::
          var r := db.tunnels[t];
          r.(originalUser := OrElse(r.originalUser, r.user), originalPort := OrElse(r.originalPort, r.port)))
  }

  /** One round of the loop. */
  ghost function ReleaseRow(db: Db, id: Id): (Db, bool)
    requires id in db.tunnels
  {
    var t := db.tunnels[id];
    var user := RetiredUser(id, t.user);
    var port := if t.port > 0 then NextRetiredPort(db, t.hub) else t.port;
    if user != t.user || port != t.port then UpdateTunnel(db, id, t.(user := user, port := port)) else (db, true)
  }

  /** The loop stops at the first UPDATE that is refused. */
  ghost function ReleaseRows(db: Db, rows: seq<Id>): (Db, bool)
    decreases |rows|
  {
    if rows == [] then (db, true)
    else
      var (db', ok) := ReleaseRows(db, rows[..|rows| - 1]);
      var id := rows[|rows| - 1];
      if ok && id in db'.tunnels then ReleaseRow(db', id) else (db', ok)
  }

  ghost predicate RetiredRows(db: Db, rows: seq<Id>) {
    && (forall t :: t in rows <==> t in db.tunnels && db.tunnels[t].status == TRetired)
    && (forall i, j | 0 <= i < j < |rows| :: rows[i] != rows[j])
  }

  ghost function ReleaseRetired(db: Db, rows: seq<Id>): (Db, bool) {
    ReleaseRows(FillOriginals(db), rows)
  }

  // ---------- The generated SSH configuration ----------

  /** The join and filter of GenerateSSHConfig. */
  predicate Listed(db: Db, m: Id, t: Id) {
    && m in db.machines && t in db.tunnels && db.tunnels[t].machine == m
    && db.machines[m].desired == Active
    && (db.machines[m].observed == Online || db.machines[m].observed == Degraded)
    && !Down(db.tunnels[t].status)
  }
}
