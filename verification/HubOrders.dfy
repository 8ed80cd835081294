/** Which of the queued commands tells an agent to start, to stop or to go, and that the last such order always
    says what the hub wants of the machine. */
module HubOrders {
  import opened Hub
  import opened HubInvariants
  import opened Options
  import opened Slug

  predicate IsOrder(k: CommandType) {
    k == StartTunnel || k == StopTunnel || k == Uninstall
  }

  /** The last order queued for a machine. */
  function LastOrder(commands: seq<Command>, m: Id): Option<CommandType> {
    if commands == [] then None
    else
      var c := commands[|commands| - 1];
      if c.machine == m && IsOrder(c.kind) then Some(c.kind) else LastOrder(commands[..|commands| - 1], m)
  }

  predicate OrderFits(desired: Desired, last: Option<CommandType>) {
    match desired
    case Active => last.None? || last == Some(StartTunnel)
    case Disabled => last == Some(StopTunnel)
    case Retiring => last == Some(Uninstall)
    case Retired => true
  }

  ghost predicate OrdersFit(db: Db) {
    forall m | m in db.machines :: OrderFits(db.machines[m].desired, LastOrder(db.commands, m))
  }

  // ---------- One command more ----------

  lemma LastOrderSnoc(commands: seq<Command>, c: Command)
    ensures forall m :: LastOrder(commands + [c], m) ==
              if c.machine == m && IsOrder(c.kind) then Some(c.kind) else LastOrder(commands, m)
  {
    assert (commands + [c])[..|commands|] == commands;
  }

  lemma {:induction false} NoOrderYet(commands: seq<Command>, m: Id)
    requires forall i | 0 <= i < |commands| :: commands[i].machine != m
    ensures LastOrder(commands, m).None?
    decreases |commands|
  {
    if commands != [] {
      NoOrderYet(commands[..|commands| - 1], m);
    }
  }

  // ---------- Each step ----------

  /** What a change queues, command by command. */
  lemma ChangeQueues(db: Db, id: Id, desired: Desired, rows: seq<Id>, draws: seq<string>, saved: bool,
      fold: string -> string)
    requires SetDesired(db, id, desired, rows, draws, saved, fold).1
    ensures var db' := SetDesired(db, id, desired, rows, draws, saved, fold).0;
            && id in db.machines && id in db'.machines
            && var g := db.machines[id].generation + 1;
               db'.commands == db.commands +
                 match desired
                 case Active => [Command(id, g, SyncKeys), Command(id, g, StartTunnel)]
                 case Disabled => [Command(id, g, StopTunnel), Command(id, g, SyncKeys)]
                 case Retiring => [Command(id, g, Uninstall)]
                 case Retired => []
  {
    if desired == Retired {
      RetireIs(db, id, rows, draws, saved, fold);
      RetireRowsQueuesNothing(db, rows);
      hide SetDesired, RetireRows;
      assert db.commands + [] == db.commands;
    } else {
      SwitchIs(db, id, desired, rows, draws, saved, fold);
      hide SetDesired;
    }
  }

  lemma {:induction false} RetireRowsQueuesNothing(db: Db, rows: seq<Id>)
    ensures RetireRows(db, rows).commands == db.commands && RetireRows(db, rows).machines == db.machines
    decreases |rows|
  {
    if rows != [] {
      RetireRowsQueuesNothing(db, rows[..|rows| - 1]);
    }
  }

  lemma SetDesiredOrders(db: Db, id: Id, desired: Desired, rows: seq<Id>, draws: seq<string>, saved: bool,
      fold: string -> string)
    requires OrdersFit(db)
    ensures OrdersFit(SetDesired(db, id, desired, rows, draws, saved, fold).0)
  {
    if id in db.machines {
      if desired == Retired {
        RetireIs(db, id, rows, draws, saved, fold);
        RetireRowsQueuesNothing(db, rows);
        hide SetDesired, RetireRows;
      } else {
        SwitchIs(db, id, desired, rows, draws, saved, fold);
        ChangeQueues(db, id, desired, rows, draws, saved, fold);
        hide SetDesired, Enqueue, SwitchCommands;
        var g := db.machines[id].generation + 1;
        SwitchedOrders(db.commands, id, g, desired);
      }
    }
  }

  lemma SwitchedOrders(commands: seq<Command>, id: Id, g: nat, desired: Desired)
    requires desired != Retired
    ensures var later := commands +
              match desired
              case Active => [Command(id, g, SyncKeys), Command(id, g, StartTunnel)]
              case Disabled => [Command(id, g, StopTunnel), Command(id, g, SyncKeys)]
              case _ => [Command(id, g, Uninstall)];
            && OrderFits(desired, LastOrder(later, id))
            && forall m | m != id :: LastOrder(later, m) == LastOrder(commands, m)
  {
    match desired
    case Active => TwoMore(commands, Command(id, g, SyncKeys), Command(id, g, StartTunnel));
    case Disabled => TwoMore(commands, Command(id, g, StopTunnel), Command(id, g, SyncKeys));
    case _ => LastOrderSnoc(commands, Command(id, g, Uninstall));
  }

  lemma TwoMore(commands: seq<Command>, a: Command, b: Command)
    ensures forall m :: LastOrder(commands + [a, b], m) ==
              if b.machine == m && IsOrder(b.kind) then Some(b.kind)
              else if a.machine == m && IsOrder(a.kind) then Some(a.kind) else LastOrder(commands, m)
  {
    LastOrderSnoc(commands, a);
    LastOrderSnoc(commands + [a], b);
    assert commands + [a, b] == commands + [a] + [b];
  }

  lemma CreateOrders(db: Db, x: NewMachine)
    requires Inv(db) && OrdersFit(db)
    ensures OrdersFit(CreateRows(db, x).0)
  {
    if CreateRows(db, x).1.None? {
      InvHasTunnels(db);
      var m, t := CreateAddsTwoRows(db, x);
      hide CreateRows;
      NoOrderYet(db.commands, x.machine);
    }
  }

  lemma NextOrders(s: State, step: Step, fold: string -> string)
    requires StateInv(s) && OrdersFit(s.db)
    ensures OrdersFit(Next(s, step, fold).db)
  {
    hide Inv, CreateRows, SetDesired, ReleaseRows, OrderFits, LastOrder, RowsOf;
    if Enabled(s, step) {
      match step
      case Create(j, x) => CreateOrders(s.db, x);
      case SetDesiredState(m, desired, rows, draws, saved) =>
        SetDesiredOrders(s.db, m, desired, rows, draws, saved, fold);
      case UpdateWrite(j) =>
        LastOrderSnoc(s.db.commands, Command(s.jobs[j].machine, s.jobs[j].generation, UpdateAgent));
        assert QueueUpdate(s.db, s.jobs[j].machine, s.jobs[j].generation).commands ==
               s.db.commands + [Command(s.jobs[j].machine, s.jobs[j].generation, UpdateAgent)];
      case ReleaseRetiredTunnels(rows) =>
        InvHasTunnels(s.db);
        ReleaseIsNoOp(s.db, rows);
      case _ =>
    }
  }

  /** In every run, the last order queued for a machine says what is wanted of it: stop if it is to be
      disabled, uninstall if it is retiring, start, or nothing yet, if it is to be active. */
  lemma {:induction false} TheLastOrderFits(hubs: map<Id, HubRow>, steps: seq<Step>, fold: string -> string)
    requires forall h | h in hubs :: hubs[h].portStart > 0
    ensures OrdersFit(Exec(Empty(hubs), steps, fold).db)
    decreases |steps|
  {
    hide Inv, Next, OrderFits, LastOrder;
    if steps != [] {
      TheLastOrderFits(hubs, steps[..|steps| - 1], fold);
      EveryRunKeepsInv(hubs, steps[..|steps| - 1], fold);
      NextOrders(Exec(Empty(hubs), steps[..|steps| - 1], fold), steps[|steps| - 1], fold);
    }
  }
}
