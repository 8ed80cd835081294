/** The life of a registration request on the hub (api.go, provisioner.go). Each SQL statement is one
    atomic step; between two statements of one handler, statements of any other handlers may run. */
module Requests {
  import opened Options

  datatype Status = Pending | Approved | Provisioning | Provisioned | Denied | Expired

  /** A hash stands for the secret it was made from: VerifySecret holds for that secret alone. */
  type Hash = nat

  datatype Row = Row(status: Status, setupHash: Option<Hash>, setupExpires: Option<int>, expires: int)

  // ---------- The statements ----------

  function StExpire(r: Row): Row {
    r.(status := Expired)
  }

  function StIssueToken(r: Row, h: Hash, exp: int): Row {
    if r.status == Approved && r.setupHash.None? then r.(setupHash := Some(h), setupExpires := Some(exp)) else r
  }

  function StApprove(r: Row): Row {
    if r.status == Pending then r.(status := Approved, setupHash := None, setupExpires := None) else r
  }

  function StDeny(r: Row): Row {
    if r.status == Pending then r.(status := Denied) else r
  }

  /** The compare-and-swap of consumeSetupToken: it matches one row or none. */
  predicate CanConsume(r: Row, h: Hash) {
    r.status == Approved && r.setupHash == Some(h)
  }

  function StConsume(r: Row, h: Hash): Row {
    if CanConsume(r, h) then r.(status := Provisioning, setupHash := None) else r
  }

  function StRestore(r: Row): Row {
    if r.status == Provisioning then r.(status := Approved) else r
  }

  function StFinish(r: Row): Row {
    r.(status := Provisioned)
  }

  function StSweepRequests(r: Row, now: int): Row {
    if (r.status == Pending || r.status == Approved) && r.expires < now then r.(status := Expired) else r
  }

  function StSweepTokens(r: Row, now: int): Row {
    if r.status == Approved && r.setupExpires.Some? && r.setupExpires.value < now then r.(status := Expired) else r
  }

  /** What consumeSetupToken demands of the row it read. */
  predicate TokenAccepted(r: Row, h: Hash, now: int) {
    r.status == Approved && r.setupHash == Some(h) && (r.setupExpires.Some? ==> now <= r.setupExpires.value)
  }

  // ---------- Handlers run without interruption ----------

  datatype ProvisionResult = Refused | Aborted | CreateError | Created

  /** The requests table, with one method per handler. */
  class Table {
    var rows: map<string, Row>

    constructor ()
      ensures rows == map[]
    {
      rows := map[];
    }

    method Approve(id: string) returns (found: bool)
      modifies this
      ensures found == (id in old(rows) && old(rows)[id].status == Pending)
      ensures rows == if id in old(rows) then old(rows)[id := StApprove(old(rows)[id])] else old(rows)
      ensures !found ==> rows == old(rows)
      ensures found ==>
                rows == old(rows)[id := old(rows)[id].(status := Approved, setupHash := None, setupExpires := None)]
    {
      if id !in rows || rows[id].status != Pending {
        assert id in rows ==> rows == rows[id := StApprove(rows[id])];
        return false;
      }
      rows := rows[id := rows[id].(status := Approved, setupHash := None, setupExpires := None)];
      found := true;
    }

    method Deny(id: string) returns (found: bool)
      modifies this
      ensures found == (id in old(rows) && old(rows)[id].status == Pending)
      ensures rows == if id in old(rows) then old(rows)[id := StDeny(old(rows)[id])] else old(rows)
      ensures !found ==> rows == old(rows)
      ensures found ==> rows == old(rows)[id := old(rows)[id].(status := Denied)]
    {
      if id !in rows || rows[id].status != Pending {
        assert id in rows ==> rows == rows[id := StDeny(rows[id])];
        return false;
      }
      rows := rows[id := rows[id].(status := Denied)];
      found := true;
    }

    /** The status a poll answers with, and the new token if it issues one. */
    method Poll(id: string, now: int, newHash: Hash, ttl: nat) returns (status: Option<Status>, token: Option<Hash>)
      modifies this
      ensures rows.Keys == old(rows).Keys && forall k | k in rows && k != id :: rows[k] == old(rows)[k]
      ensures status.None? <==> id !in old(rows)
      ensures id in old(rows) ==>
                var r := old(rows)[id];
                rows[id] == if r.status == Pending && r.expires < now then r.(status := Expired)
                            else if r.status == Approved && r.setupHash.None? then
                              r.(setupHash := Some(newHash), setupExpires := Some(now + ttl))
                            else r
      ensures id in old(rows) ==>
                var r := old(rows)[id];
                && rows[id].status == status.value
                && (status.value == Expired <==> r.status == Expired || (r.status == Pending && r.expires < now))
                && (status.value != Expired ==> status.value == r.status)
                && (token.Some? <==> r.status == Approved && (r.setupHash.None? || r.setupExpires.None?))
                && (token.Some? ==> token == Some(newHash))
                && (token.Some? && r.setupHash.None? ==> TokenAccepted(rows[id], newHash, now))
    {
      if id !in rows {
        return None, None;
      }
      var r := rows[id];
      status, token := Some(r.status), None;
      if r.expires < now && r.status == Pending {
        status := Some(Expired);
        rows := rows[id := StExpire(rows[id])];
      }
      if status.value == Approved {
        if !(r.setupHash.Some? && r.setupExpires.Some?) {
          token := Some(newHash);
          rows := rows[id := StIssueToken(rows[id], newHash, now + ttl)];
        }
      }
    }

    /** consumeSetupToken. */
    method Consume(id: string, h: Hash, now: int) returns (ok: bool)
      modifies this
      ensures ok == (id in old(rows) && TokenAccepted(old(rows)[id], h, now))
      ensures ok ==>
                && old(rows)[id].status == Approved && old(rows)[id].setupHash == Some(h)
                && (old(rows)[id].setupExpires.Some? ==> now <= old(rows)[id].setupExpires.value)
                && rows == old(rows)[id := old(rows)[id].(status := Provisioning, setupHash := None)]
      ensures rows == if ok then old(rows)[id := StConsume(old(rows)[id], h)] else old(rows)
    {
      if id !in rows {
        return false;
      }
      var r := rows[id];
      if r.status != Approved || r.setupHash.None? || r.setupHash.value != h {
        return false;
      }
      if r.setupExpires.Some? && now > r.setupExpires.value {
        return false;
      }
      var affected := CanConsume(rows[id], h);
      if affected {
        rows := rows[id := StConsume(rows[id], h)];
      }
      ok := affected;
    }

    /** handleClientProvision: `usable` says that slug and owner check out, `create` that CreateMachine
        succeeds. A failed CreateMachine gives the request back without its token; an unusable slug does
        not give it back. */
    method Provision(id: string, h: Hash, now: int, usable: bool, create: bool) returns (res: ProvisionResult)
      modifies this
      ensures res == if id !in old(rows) || !TokenAccepted(old(rows)[id], h, now) then Refused
                     else if !usable then Aborted else if create then Created else CreateError
      ensures res == Refused ==> rows == old(rows)
      ensures res != Refused ==>
                rows == old(rows)[id := old(rows)[id].(setupHash := None, status :=
                  match res case Aborted => Provisioning case CreateError => Approved case _ => Provisioned)]
    {
      var ok := Consume(id, h, now);
      if !ok {
        return Refused;
      }
      if !usable {
        return Aborted;
      }
      if !create {
        rows := rows[id := StRestore(rows[id])];
        return CreateError;
      }
      rows := rows[id := StFinish(rows[id])];
      res := Created;
    }

    /** The two request statements of ExpireOnce. */
    method ExpireOnce(now: int)
      modifies this
      ensures rows == map k | k in old(rows) :: StSweepTokens(StSweepRequests(old(rows)[k], now), now)
      ensures rows.Keys == old(rows).Keys
      ensures forall k | k in rows ::
                var r := old(rows)[k];
                rows[k] == if (r.status == Pending && r.expires < now) || (r.status == Approved && (r.expires < now
                                || (r.setupExpires.Some? && r.setupExpires.value < now)))
                           then r.(status := Expired) else r
    {
      rows := map k | k in rows :: StSweepRequests(rows[k], now);
      rows := map k | k in rows :: StSweepTokens(rows[k], now);
    }
  }

  // ---------- All handlers interleaved, for one request ----------

  /** Where a handler call stands between two of its statements. */
  datatype Call =
    | PollRead(seen: Row)       // poll has read the row
    | TokenRead(hash: Hash)     // consumeSetupToken has read and accepted the row
    | Consumed                  // its compare-and-swap matched
    | Creating                  // inside CreateMachine
    | CreateFailed
    | CreateDone
    | Finished

  /** `created` counts successful CreateMachine calls; `consumed` and `issued` are the token hashes the
      compare-and-swap has matched and the hashes ever generated. */
  datatype State = State(row: Row, calls: map<nat, Call>, created: nat, consumed: set<Hash>, issued: set<Hash>)

  datatype Step =
    | PollSelect(c: nat)
    | PollExpire(c: nat, now: int)
    | PollIssue(c: nat, h: Hash, exp: int)
    | Approve
    | Deny
    | SweepRequests(now: int)
    | SweepTokens(now: int)
    | ProvisionSelect(c: nat, h: Hash, now: int)
    | ProvisionConsume(c: nat)
    | ProvisionAbort(c: nat)
    | CreateStart(c: nat)
    | CreateEnd(c: nat, ok: bool)
    | ProvisionRestore(c: nat)
    | ProvisionFinish(c: nat)

  predicate At(s: State, c: nat, call: Call) {
    c in s.calls && s.calls[c] == call
  }

  predicate Enabled(s: State, step: Step) {
    match step
    case PollSelect(c) => c !in s.calls
    case PollExpire(c, now) => c in s.calls && s.calls[c].PollRead? && s.calls[c].seen.status == Pending
      && s.calls[c].seen.expires < now
    case PollIssue(c, h, _) =>
      && c in s.calls && s.calls[c].PollRead? && h !in s.issued
      && var seen := s.calls[c].seen; seen.status == Approved && !(seen.setupHash.Some? && seen.setupExpires.Some?)
    case ProvisionSelect(c, h, now) => c !in s.calls && TokenAccepted(s.row, h, now)
    case ProvisionConsume(c) => c in s.calls && s.calls[c].TokenRead?
    case ProvisionAbort(c) => At(s, c, Consumed)
    case CreateStart(c) => At(s, c, Consumed)
    case CreateEnd(c, _) => At(s, c, Creating)
    case ProvisionRestore(c) => At(s, c, CreateFailed)
    case ProvisionFinish(c) => At(s, c, CreateDone)
    case _ => true
  }

  /** A step that is not enabled changes nothing, so every sequence of steps is a run. */
  function Next(s: State, step: Step): State {
    if !Enabled(s, step) then s
    else
      match step
      case PollSelect(c) => s.(calls := s.calls[c := PollRead(s.row)])
      case PollExpire(c, _) => s.(row := StExpire(s.row), calls := s.calls[c := Finished])
      case PollIssue(c, h, exp) =>
        s.(row := StIssueToken(s.row, h, exp), calls := s.calls[c := Finished], issued := s.issued + {h})
      case Approve => s.(row := StApprove(s.row))
      case Deny => s.(row := StDeny(s.row))
      case SweepRequests(now) => s.(row := StSweepRequests(s.row, now))
      case SweepTokens(now) => s.(row := StSweepTokens(s.row, now))
      case ProvisionSelect(c, h, _) => s.(calls := s.calls[c := TokenRead(h)])
      case ProvisionConsume(c) =>
        var h := s.calls[c].hash;
        if CanConsume(s.row, h) then
          s.(row := StConsume(s.row, h), calls := s.calls[c := Consumed], consumed := s.consumed + {h})
        else s.(calls := s.calls[c := Finished])
      case ProvisionAbort(c) => s.(calls := s.calls[c := Finished])
      case CreateStart(c) => s.(calls := s.calls[c := Creating])
      case CreateEnd(c, ok) =>
        if ok then s.(calls := s.calls[c := CreateDone], created := s.created + 1)
        else s.(calls := s.calls[c := CreateFailed])
      case ProvisionRestore(c) => s.(row := StRestore(s.row), calls := s.calls[c := Finished])
      case ProvisionFinish(c) => s.(row := StFinish(s.row), calls := s.calls[c := Finished])
  }

  /** handleClientRegister inserts a pending request, or an approved one with a token. */
  predicate Registered(r: Row) {
    (r.status == Pending && r.setupHash.None? && r.setupExpires.None?)
      || (r.status == Approved && r.setupHash.Some? && r.setupExpires.Some?)
  }

  function Init(r: Row): State {
    State(r, map[], 0, {}, if r.setupHash.Some? then {r.setupHash.value} else {})
  }

  function Exec(s: State, steps: seq<Step>): State {
    if steps == [] then s else Next(Exec(s, steps[..|steps| - 1]), steps[|steps| - 1])
  }

  predicate InFlight(c: Call) {
    c.Consumed? || c.Creating? || c.CreateFailed? || c.CreateDone?
  }

  ghost predicate Idle(s: State) {
    forall c | c in s.calls :: !InFlight(s.calls[c])
  }

  // ---------- A handler that is not interrupted is its steps in a row ----------

  /** A poll: the row and whether it generates a token. */
  lemma PollInSteps(s: State, c: nat, now: int, h: Hash, exp: int)
    requires c !in s.calls && h !in s.issued
    ensures var later := Next(Next(Next(s, PollSelect(c)), PollExpire(c, now)), PollIssue(c, h, exp));
            var r := s.row;
            && later.row == (if r.status == Pending && r.expires < now then r.(status := Expired)
                             else if r.status == Approved && r.setupHash.None? then
                               r.(setupHash := Some(h), setupExpires := Some(exp))
                             else r)
            && (h in later.issued <==> r.status == Approved && (r.setupHash.None? || r.setupExpires.None?))
            && later.created == s.created && later.calls.Keys == s.calls.Keys + {c}
            && (later.row != r ==> At(later, c, Finished)) && forall d | d in s.calls :: later.calls[d] == s.calls[d]
  {}

  /** A provision call that is refused, and one that stops after taking the token. */
  lemma RefusalInSteps(s: State, c: nat, h: Hash, now: int)
    requires c !in s.calls
    ensures var r := s.row;
            var taken := Next(Next(s, ProvisionSelect(c, h, now)), ProvisionConsume(c));
            if r.status == Approved && r.setupHash == Some(h) && (r.setupExpires.Some? ==> now <= r.setupExpires.value)
            then
              && taken.row == r.(status := Provisioning, setupHash := None) && At(taken, c, Consumed)
              && Next(taken, ProvisionAbort(c)) == taken.(calls := taken.calls[c := Finished])
              && taken.created == s.created
            else taken == s
  {}

  /** One that goes on, with a failing or a successful CreateMachine. */
  lemma ProvisionInSteps(s: State, c: nat, create: bool)
    requires At(s, c, Consumed) && s.row.status == Provisioning
    ensures var ended := Next(Next(s, CreateStart(c)), CreateEnd(c, create));
            var later := Next(Next(ended, ProvisionRestore(c)), ProvisionFinish(c));
            && later.row == s.row.(status := if create then Provisioned else Approved)
            && later.created == s.created + (if create then 1 else 0) && At(later, c, Finished)
  {}

  // ---------- The invariant ----------

  ghost predicate Inv(s: State) {
    && (forall c, d | c in s.calls && d in s.calls && InFlight(s.calls[c]) && InFlight(s.calls[d]) :: c == d)
    && (!Idle(s) ==> s.row.status == Provisioning || s.row.status == Expired)
    && s.created <= 1
    && (s.created == 1 ==> s.row.status != Pending && s.row.status != Approved)
    && (forall c | c in s.calls && InFlight(s.calls[c]) :: s.created == if s.calls[c].CreateDone? then 1 else 0)
    && (s.created == 1 && Idle(s) ==> s.row.status == Provisioned || s.row.status == Expired)
    && (s.row.setupHash.Some? ==> s.row.setupHash.value in s.issued && s.row.setupHash.value !in s.consumed)
    && s.consumed <= s.issued
    && (s.row.status == Provisioning ==> s.row.setupHash.None?)
  }

  predicate ForProvision(step: Step) {
    step.ProvisionConsume? || step.ProvisionAbort? || step.CreateStart? || step.CreateEnd? || step.ProvisionRestore?
      || step.ProvisionFinish?
  }

  lemma NextInv(s: State, step: Step)
    requires Inv(s)
    ensures Inv(Next(s, step))
  {
    if Enabled(s, step) {
      hide Inv, Next;
      if step.ProvisionConsume? {
        ConsumeInv(s, step.c);
      } else if ForProvision(step) {
        InFlightInv(s, step);
      } else {
        OtherInv(s, step);
      }
    }
  }

  /** Polls, approvals and sweeps start and end no provision, and make nothing approved again. */
  lemma OtherInv(s: State, step: Step)
    requires Inv(s) && Enabled(s, step) && !ForProvision(step)
    ensures Inv(Next(s, step))
  {
    var s' := Next(s, step);
    assert forall c :: (c in s'.calls && InFlight(s'.calls[c])) <==> (c in s.calls && InFlight(s.calls[c]));
    assert Idle(s) == Idle(s');
    assert forall c | c in s.calls && InFlight(s.calls[c]) :: s'.calls[c] == s.calls[c];
  }

  /** A token is taken only from an approved row, when nothing is in flight. */
  lemma ConsumeInv(s: State, c: nat)
    requires Inv(s) && Enabled(s, ProvisionConsume(c))
    ensures Inv(Next(s, ProvisionConsume(c)))
  {
    var s' := Next(s, ProvisionConsume(c));
    if CanConsume(s.row, s.calls[c].hash) {
      assert Idle(s);
      assert InFlight(s'.calls[c]) && forall d | d in s'.calls && d != c :: !InFlight(s'.calls[d]);
    } else {
      assert forall d :: (d in s'.calls && InFlight(s'.calls[d])) <==> (d in s.calls && InFlight(s.calls[d]));
      assert Idle(s) == Idle(s');
      assert forall d | d in s.calls && InFlight(s.calls[d]) :: s'.calls[d] == s.calls[d];
    }
  }

  /** The steps of the one provision in flight. */
  lemma InFlightInv(s: State, step: Step)
    requires Inv(s) && Enabled(s, step) && ForProvision(step) && !step.ProvisionConsume?
    ensures Inv(Next(s, step))
    ensures step.ProvisionAbort? || step.ProvisionRestore? || step.ProvisionFinish? ==> Idle(Next(s, step))
  {
    var s' := Next(s, step);
    assert InFlight(s.calls[step.c]);
    assert forall d | d in s'.calls && d != step.c :: !InFlight(s'.calls[d]);
    if step.CreateStart? || step.CreateEnd? {
      assert InFlight(s'.calls[step.c]);
    } else {
      assert Idle(s');
    }
  }

  lemma {:induction false} ExecInv(s: State, steps: seq<Step>)
    requires Inv(s)
    ensures Inv(Exec(s, steps))
    decreases |steps|
  {
    if steps != [] {
      ExecInv(s, steps[..|steps| - 1]);
      NextInv(Exec(s, steps[..|steps| - 1]), steps[|steps| - 1]);
    }
  }

  /** Whatever polls, approvals, denials, sweeps and provision calls do to one request in whatever order:
      at most one provision is past its compare-and-swap, at most one CreateMachine ever succeeds, and
      while the status is pending or approved none is in flight and none has succeeded. */
  lemma AtMostOneMachine(r: Row, steps: seq<Step>)
    requires Registered(r)
    ensures var s := Exec(Init(r), steps);
            && (forall c, d | c in s.calls && d in s.calls && InFlight(s.calls[c]) && InFlight(s.calls[d]) :: c == d)
            && s.created <= 1
            && (s.row.status == Pending || s.row.status == Approved ==> Idle(s) && s.created == 0)
  {
    ExecInv(Init(r), steps);
  }

  /** A token that the compare-and-swap has matched once is never accepted and never matched again. */
  lemma AUsedTokenIsDead(s: State, c: nat, steps: seq<Step>, now: int)
    requires Inv(s) && c in s.calls && s.calls[c].TokenRead? && CanConsume(s.row, s.calls[c].hash)
    ensures var h, later := s.calls[c].hash, Exec(Next(s, ProvisionConsume(c)), steps);
            At(Next(s, ProvisionConsume(c)), c, Consumed)
            && !TokenAccepted(later.row, h, now) && !CanConsume(later.row, h)
  {
    UnstoredTokenIsDead(Next(s, ProvisionConsume(c)), s.calls[c].hash, steps, now);
  }

  /** No token is consumed twice, even by calls that had both read the row while it was valid. */
  lemma TokensAreSingleUse(r: Row, steps: seq<Step>, c: nat)
    requires Registered(r)
    ensures var s := Exec(Init(r), steps);
            c in s.calls && s.calls[c].TokenRead? && s.calls[c].hash in s.consumed ==>
              Next(s, ProvisionConsume(c)) == s.(calls := s.calls[c := Finished])
  {
    ExecInv(Init(r), steps);
  }

  // ---------- What the unguarded statements do break ----------

  /** A provisioned request stays provisioned under every statement but one: the expiry update of a poll
      that read the row while it was still pending. That one always overwrites it. */
  lemma OnlyAStalePollUndoesProvisioned(s: State, step: Step)
    requires Inv(s) && s.row.status == Provisioned
    ensures Next(s, step).row.status != Provisioned <==>
            && step.PollExpire? && step.c in s.calls && s.calls[step.c].PollRead?
            && s.calls[step.c].seen.status == Pending && s.calls[step.c].seen.expires < step.now
  {
    assert Idle(s);
  }

  /** Some continuation of s leads to s'. */
  ghost predicate Leads(s: State, s': State) {
    exists steps :: Exec(s, steps) == s'
  }

  lemma LeadsSelf(s: State)
    ensures Leads(s, s)
  {
    assert Exec(s, []) == s;
  }

  lemma LeadsNext(s: State, s': State, step: Step)
    requires Inv(s) && Leads(s, s')
    ensures Leads(s, Next(s', step)) && Inv(s') && Inv(Next(s', step))
  {
    hide Next;
    var steps :| Exec(s, steps) == s';
    assert (steps + [step])[..|steps|] == steps;
    assert Exec(s, steps + [step]) == Next(s', step);
    ExecInv(s, steps);
    NextInv(s', step);
  }

  lemma LeadsOn(a: State, b: State, c: State)
    requires Leads(a, b) && Leads(b, c)
    ensures Leads(a, c)
  {
    var first :| Exec(a, first) == b;
    var second :| Exec(b, second) == c;
    ExecConcat(a, first, second);
    assert Exec(a, first + second) == c;
  }

  lemma {:induction false} ExecConcat(s: State, a: seq<Step>, b: seq<Step>)
    ensures Exec(s, a + b) == Exec(Exec(s, a), b)
    decreases |b|
  {
    hide Next;
    if b == [] {
      assert a + b == a;
    } else {
      ExecConcat(s, a, b[..|b| - 1]);
      assert (a + b)[..|a + b| - 1] == a + b[..|b| - 1];
    }
  }

  /** Some run from a registered row leads to this state. */
  ghost predicate Reachable(r: Row, s: State) {
    Registered(r) && Leads(Init(r), s)
  }

  lemma ReachStart(r: Row)
    requires Registered(r)
    ensures Reachable(r, Init(r))
  {
    LeadsSelf(Init(r));
  }

  lemma ReachNext(r: Row, s: State, step: Step)
    requires Reachable(r, s)
    ensures Reachable(r, Next(s, step)) && Inv(s)
  {
    hide Next, Leads;
    LeadsNext(Init(r), s, step);
  }

  /** A call that has read a token which is still there can take its request through to the machine. */
  lemma FullProvision(s: State, c: nat, h: Hash) returns (s': State)
    requires Inv(s) && At(s, c, TokenRead(h)) && CanConsume(s.row, h)
    ensures Leads(s, s') && s'.created == 1 && s'.row.status == Provisioned && Idle(s')
    ensures forall d | d in s.calls && d != c :: At(s', d, s.calls[d])
  {
    var s1 := TokenTaken(s, c, h);
    hide Leads, Inv;
    LeadsNext(s, s1, CreateStart(c));
    var s2 := Next(s1, CreateStart(c));
    assert forall d | d in s.calls && d != c :: At(s1, d, s.calls[d]) && At(s2, d, s.calls[d]);
    s' := CreateSucceeds(s, s2, c);
  }

  lemma TokenTaken(s: State, c: nat, h: Hash) returns (s': State)
    requires Inv(s) && At(s, c, TokenRead(h)) && CanConsume(s.row, h)
    ensures s' == Next(s, ProvisionConsume(c)) && Leads(s, s') && Inv(s')
    ensures s'.created == 0 && At(s', c, Consumed) && s'.row.status == Provisioning
    ensures forall d | d in s.calls && d != c :: At(s', d, s.calls[d])
  {
    LeadsSelf(s);
    LeadsNext(s, s, ProvisionConsume(c));
    hide Leads;
    s' := Next(s, ProvisionConsume(c));
  }

  lemma CreateSucceeds(from: State, s: State, c: nat) returns (s': State)
    requires Inv(from) && Leads(from, s) && At(s, c, Creating) && s.created == 0
    ensures Leads(from, s') && s'.created == 1 && s'.row.status == Provisioned && Idle(s')
    ensures forall d | d in s.calls && d != c :: At(s', d, s.calls[d])
  {
    hide Leads, Inv;
    LeadsNext(from, s, CreateEnd(c, true));
    var s1 := Next(s, CreateEnd(c, true));
    LeadsNext(from, s1, ProvisionFinish(c));
    s' := Next(s1, ProvisionFinish(c));
    InFlightInv(s1, ProvisionFinish(c));
  }

  /** Such a run exists: the request ends up expired although its machine was created. */
  lemma ProvisionedCanExpire()
    ensures exists r, s :: Reachable(r, s) && s.created == 1 && s.row.status == Expired && Idle(s)
  {
    var r, s := StalePoll(7);
    var done := FullProvision(s, 3, 7);
    LeadsOn(Init(r), s, done);
    hide Leads;
    ReachNext(r, done, PollExpire(1, 101));
    IdleStep(done, PollExpire(1, 101));
    assert Reachable(r, Next(done, PollExpire(1, 101)));
  }

  /** One poll has read the pending row; then the request was approved, another poll issued a token, and a
      provision call has read it. */
  lemma StalePoll(h: Hash) returns (r: Row, s: State)
    ensures r == Row(Pending, None, None, 100) && Reachable(r, s) && Inv(s)
    ensures At(s, 1, PollRead(r)) && At(s, 3, TokenRead(h)) && CanConsume(s.row, h)
  {
    r := Row(Pending, None, None, 100);
    ReachStart(r);
    hide Reachable, Inv, Leads;
    ReachNext(r, Init(r), PollSelect(1));
    var s1 := Next(Init(r), PollSelect(1));
    ReachNext(r, s1, Approve);
    var s2 := Next(s1, Approve);
    ReachInv(r, s2);
    s := TokenIssued(s2, 2, 3, h);
    ReachOn(r, s2, s);
  }

  lemma ReachInv(r: Row, s: State)
    requires Reachable(r, s)
    ensures Inv(s)
  {
    var steps :| Exec(Init(r), steps) == s;
    ExecInv(Init(r), steps);
  }

  lemma ReachOn(r: Row, s: State, s': State)
    requires Reachable(r, s) && Leads(s, s')
    ensures Reachable(r, s')
  {
    LeadsOn(Init(r), s, s');
  }

  /** An approved row without a token gets one from a poll, which a provision call then reads. */
  lemma TokenIssued(s: State, poll: nat, provision: nat, h: Hash) returns (s': State)
    requires Inv(s) && s.row.status == Approved && s.row.setupHash.None? && h !in s.issued
    requires poll !in s.calls && provision !in s.calls && poll != provision
    ensures Leads(s, s') && Inv(s') && At(s', provision, TokenRead(h)) && CanConsume(s'.row, h)
    ensures forall d | d in s.calls :: At(s', d, s.calls[d])
  {
    LeadsSelf(s);
    hide Leads, Inv;
    LeadsNext(s, s, PollSelect(poll));
    var s1 := Next(s, PollSelect(poll));
    LeadsNext(s, s1, PollIssue(poll, h, 200));
    var s2 := Next(s1, PollIssue(poll, h, 200));
    LeadsNext(s, s2, ProvisionSelect(provision, h, 100));
    s' := Next(s2, ProvisionSelect(provision, h, 100));
  }

  // ---------- Tokens handed out ----------

  /** The poll hands out its token whether or not its update matched. The update stores it exactly when the
      row is then approved and still without a token. */
  lemma TokenIsStoredExactly(s: State, c: nat, h: Hash, exp: int)
    requires Inv(s) && Enabled(s, PollIssue(c, h, exp))
    ensures Next(s, PollIssue(c, h, exp)).row.setupHash == Some(h) <==>
            s.row.status == Approved && s.row.setupHash.None?
  {}

  /** A token that was handed out and is not in the row is never accepted again: one that was not stored,
      and one that was used. */
  lemma {:induction false} UnstoredTokenIsDead(s: State, h: Hash, steps: seq<Step>, now: int)
    requires h in s.issued && s.row.setupHash != Some(h)
    ensures var later := Exec(s, steps);
            h in later.issued && later.row.setupHash != Some(h) && !TokenAccepted(later.row, h, now)
    decreases |steps|
  {
    if steps != [] {
      UnstoredTokenIsDead(s, h, steps[..|steps| - 1], now);
    }
  }

  /** Two polls have read the approved row before either stores a token. */
  lemma TwoPolls() returns (r: Row, s: State)
    ensures Reachable(r, s) && s.row == Row(Approved, None, None, 100) && s.issued == {}
    ensures At(s, 1, PollRead(s.row)) && At(s, 2, PollRead(s.row))
  {
    r := Row(Pending, None, None, 100);
    ReachStart(r);
    hide Reachable, Inv;
    ReachNext(r, Init(r), Approve);
    var s1 := Next(Init(r), Approve);
    ReachNext(r, s1, PollSelect(1));
    var s2 := Next(s1, PollSelect(1));
    ReachNext(r, s2, PollSelect(2));
    s := Next(s2, PollSelect(2));
  }

  /** Then the second one hands out a token that is not stored. */
  lemma TwoPollsOneToken()
    ensures exists r, s, c: nat, h: Hash, exp ::
              Reachable(r, s) && Enabled(s, PollIssue(c, h, exp))
                && Next(s, PollIssue(c, h, exp)).row.setupHash != Some(h)
  {
    var r, s := TwoPolls();
    hide Reachable, Inv;
    ReachNext(r, s, PollIssue(1, 7, 200));
    var s' := Next(s, PollIssue(1, 7, 200));
    assert Reachable(r, s') && Enabled(s', PollIssue(2, 8, 200));
    assert Next(s', PollIssue(2, 8, 200)).row.setupHash == Some(7);
  }

  // ---------- Requests that lead nowhere ----------

  /** With nothing in flight, only a consumed token starts a provision, and only an approved row has one. */
  lemma IdleStep(s: State, step: Step)
    requires Idle(s) && s.row.status != Approved
    ensures Idle(Next(s, step)) && Next(s, step).created == s.created
    ensures s.row.status != Pending ==> Next(s, step).row.status == s.row.status || Next(s, step).row.status == Expired
  {
    assert forall c | c in s.calls :: !InFlight(s.calls[c]);
  }

  /** With nothing in flight a request that is neither pending nor approved gets no further machine. */
  lemma {:induction false} ClosedStaysClosed(s: State, steps: seq<Step>)
    requires Idle(s) && s.row.status != Pending && s.row.status != Approved
    ensures var later := Exec(s, steps);
            later.created == s.created && Idle(later)
              && (later.row.status == s.row.status || later.row.status == Expired)
    decreases |steps|
  {
    hide Next, Idle;
    if steps != [] {
      ClosedStaysClosed(s, steps[..|steps| - 1]);
      IdleStep(Exec(s, steps[..|steps| - 1]), steps[|steps| - 1]);
    }
  }

  /** A request whose provision call stopped between the compare-and-swap and CreateMachine (an invalid
      slug, no admin user) is spent: it never leads to a machine in any continuation. */
  lemma {:induction false} AbortedIsSpent(s: State, c: nat, steps: seq<Step>)
    requires Inv(s) && At(s, c, Consumed)
    ensures var later := Exec(Next(s, ProvisionAbort(c)), steps);
            later.created == 0 && Idle(later) && (later.row.status == Provisioning || later.row.status == Expired)
  {
    InFlightInv(s, ProvisionAbort(c));
    assert InFlight(s.calls[c]);
    ClosedStaysClosed(Next(s, ProvisionAbort(c)), steps);
  }

  // ---------- Calls that end without a machine ----------

  /** The call ends without a machine: an unusable slug or owner, or a failed CreateMachine. */
  predicate EndsWithoutMachine(s: State, step: Step, c: nat) {
    (step == ProvisionAbort(c) && At(s, c, Consumed)) || (step == ProvisionRestore(c) && At(s, c, CreateFailed))
  }

  lemma {:induction false} UpperBound(ids: set<nat>) returns (n: nat)
    ensures forall k | k in ids :: k < n
    decreases ids
  {
    if k :| k in ids {
      var m := UpperBound(ids - {k});
      n := if m > k then m else k + 1;
      assert forall i | i in ids :: i == k || i in ids - {k};
    } else {
      n := 0;
    }
  }

  /** An approved request without a token can always still lead to a machine, if it has not yet. */
  lemma ApprovedCanSucceed(s: State) returns (s': State)
    requires Inv(s) && s.row.status == Approved && s.row.setupHash.None?
    ensures Leads(s, s') && s'.created == 1
  {
    var c := UpperBound(s.calls.Keys);
    var h := UpperBound(s.issued);
    var s1 := TokenIssued(s, c, c + 1, h);
    s' := FullProvision(s1, c + 1, h);
    LeadsOn(s, s1, s');
  }

  /** A request whose call ended without a machine can still lead to one exactly when the call gave it back
      and it had not expired meanwhile; a call that gives nothing back has spent it. */
  lemma {:induction false} OnlyAGivenBackRequestCanSucceed(s: State, step: Step, c: nat)
    requires Inv(s) && EndsWithoutMachine(s, step, c)
    ensures (exists steps :: Exec(Next(s, step), steps).created == 1) <==>
            step.ProvisionRestore? && s.row.status == Provisioning
  {
    var s' := Next(s, step);
    assert InFlight(s.calls[c]);
    NextInv(s, step);
    InFlightInv(s, step);
    if step.ProvisionRestore? && s.row.status == Provisioning {
      var later := ApprovedCanSucceed(s');
      var steps :| Exec(s', steps) == later;
      assert Exec(s', steps).created == 1;
    } else {
      assert s'.created == 0 && s'.row.status != Pending && s'.row.status != Approved;
      hide Next, Inv;
      forall steps ensures Exec(s', steps).created == 0 {
        ClosedStaysClosed(s', steps);
      }
    }
  }

  /** A reachable call that has taken its token and got no further. */
  lemma TokenTakenReachable() returns (r: Row, s: State)
    ensures Reachable(r, s) && At(s, 3, Consumed) && s.row.status == Provisioning
  {
    var polled;
    r, polled := StalePoll(7);
    s := TokenTaken(polled, 3, 7);
    ReachOn(r, polled, s);
  }

  // ---------- Which requests can still lead to a machine ----------

  ghost predicate CanSucceed(s: State) {
    exists steps :: Exec(s, steps).created == 1
  }

  lemma CanIfLeads(s: State, s': State)
    requires Leads(s, s') && CanSucceed(s')
    ensures CanSucceed(s)
  {
    hide Exec;
    var steps :| Exec(s', steps).created == 1;
    LeadsOn(s, s', Exec(s', steps));
  }

  /** A provision call that has taken the token and whose CreateMachine has not ended, or one whose
      CreateMachine failed while the request waits for it. */
  ghost predicate Hopeful(s: State) {
    || s.created == 1 || s.row.status == Pending || s.row.status == Approved
    || exists c :: c in s.calls && (s.calls[c].Consumed? || s.calls[c].Creating?
                                    || (s.calls[c].CreateFailed? && s.row.status == Provisioning))
  }

  /** In a good state a request can still lead to a machine, or has, exactly in these cases: it has one; it is
      pending; it is approved; or a provision call is on its way. */
  lemma CanSucceedExactly(s: State)
    requires Inv(s)
    ensures CanSucceed(s) <==> Hopeful(s)
  {
    if !Hopeful(s) {
      forall steps
        ensures Exec(s, steps).created != 1
      {
        HopelessStays(s, steps);
      }
    } else if s.created == 1 {
      assert Exec(s, []).created == 1;
    } else if s.row.status == Pending {
      PendingCan(s);
    } else if s.row.status == Approved {
      ApprovedCan(s);
    } else {
      var c :| c in s.calls && (s.calls[c].Consumed? || s.calls[c].Creating?
                                || (s.calls[c].CreateFailed? && s.row.status == Provisioning));
      InFlightCan(s, c);
    }
  }

  lemma {:induction false} HopelessStays(s: State, steps: seq<Step>)
    requires Inv(s) && !Hopeful(s)
    ensures Inv(Exec(s, steps)) && !Hopeful(Exec(s, steps))
    decreases |steps|
  {
    hide Next, Inv, Hopeful;
    if steps != [] {
      HopelessStays(s, steps[..|steps| - 1]);
      HopelessStep(Exec(s, steps[..|steps| - 1]), steps[|steps| - 1]);
      NextInv(Exec(s, steps[..|steps| - 1]), steps[|steps| - 1]);
    }
  }

  lemma HopelessStep(s: State, step: Step)
    requires Inv(s) && !Hopeful(s)
    ensures !Hopeful(Next(s, step))
  {
    assert forall c | c in s.calls && InFlight(s.calls[c]) :: s.calls[c].CreateFailed? && s.row.status == Expired;
  }

  lemma ApprovedCan(s: State)
    requires Inv(s) && s.row.status == Approved
    ensures CanSucceed(s)
  {
    if s.row.setupHash.None? {
      var later := ApprovedCanSucceed(s);
      assert Leads(s, later) && later.created == 1;
    } else {
      var c := UpperBound(s.calls.Keys);
      var h := s.row.setupHash.value;
      var select := ProvisionSelect(c, h, if s.row.setupExpires.Some? then s.row.setupExpires.value else 0);
      LeadsSelf(s);
      LeadsNext(s, s, select);
      var s1 := Next(s, select);
      hide Inv, Leads;
      var later := FullProvision(s1, c, h);
      LeadsOn(s, s1, later);
      CanIfDone(s, later);
    }
  }

  lemma CanIfDone(s: State, later: State)
    requires Leads(s, later) && later.created == 1
    ensures CanSucceed(s)
  {}

  lemma PendingCan(s: State)
    requires Inv(s) && s.row.status == Pending
    ensures CanSucceed(s)
  {
    LeadsSelf(s);
    LeadsNext(s, s, Approve);
    ApprovedCan(Next(s, Approve));
    CanIfLeads(s, Next(s, Approve));
  }

  lemma InFlightCan(s: State, c: nat)
    requires Inv(s) && c in s.calls && s.created == 0
    requires s.calls[c].Consumed? || s.calls[c].Creating? || (s.calls[c].CreateFailed? && s.row.status == Provisioning)
    ensures CanSucceed(s)
  {
    LeadsSelf(s);
    hide Leads, Inv;
    if s.calls[c].Consumed? {
      LeadsNext(s, s, CreateStart(c));
      var later := CreateSucceeds(s, Next(s, CreateStart(c)), c);
      CanIfDone(s, later);
    } else if s.calls[c].Creating? {
      var later := CreateSucceeds(s, s, c);
      CanIfDone(s, later);
    } else {
      LeadsNext(s, s, ProvisionRestore(c));
      ApprovedCan(Next(s, ProvisionRestore(c)));
      CanIfLeads(s, Next(s, ProvisionRestore(c)));
    }
  }

  /** Denying a request is final. A denial takes away the last chance of exactly the pending requests. */
  lemma DenialIsFinal(s: State)
    requires Inv(s)
    ensures CanSucceed(Next(s, Deny)) <==> CanSucceed(s) && s.row.status != Pending
    ensures s.row.status == Pending ==>
              forall steps :: var later := Exec(Next(s, Deny), steps);
                later.created == 0 && (later.row.status == Denied || later.row.status == Expired)
  {
    hide CanSucceed;
    NextInv(s, Deny);
    CanSucceedExactly(s);
    CanSucceedExactly(Next(s, Deny));
    if s.row.status == Pending {
      forall steps
        ensures var later := Exec(Next(s, Deny), steps);
                later.created == 0 && (later.row.status == Denied || later.row.status == Expired)
      {
        ClosedStaysClosed(Next(s, Deny), steps);
      }
    }
  }

  /** So are the two sweeps: each takes away the last chance of exactly the requests it is for, those not yet
      taken up whose time is over, and those approved whose token's time is over. */
  lemma SweepsAreFinal(s: State, now: int)
    requires Inv(s)
    ensures var r := s.row;
            && (CanSucceed(Next(s, SweepRequests(now))) <==>
                CanSucceed(s) && !((r.status == Pending || r.status == Approved) && r.expires < now))
            && (CanSucceed(Next(s, SweepTokens(now))) <==>
                CanSucceed(s) && !(r.status == Approved && r.setupExpires.Some? && r.setupExpires.value < now))
  {
    hide CanSucceed;
    NextInv(s, SweepRequests(now));
    NextInv(s, SweepTokens(now));
    CanSucceedExactly(s);
    CanSucceedExactly(Next(s, SweepRequests(now)));
    CanSucceedExactly(Next(s, SweepTokens(now)));
  }

  /** Both endings are reachable, and the one that gives back with a request that can still succeed. */
  lemma CallsCanEndWithoutMachine()
    ensures exists r, s, c :: Reachable(r, s) && EndsWithoutMachine(s, ProvisionAbort(c), c)
    ensures exists r, s, c ::
              Reachable(r, s) && EndsWithoutMachine(s, ProvisionRestore(c), c) && s.row.status == Provisioning
  {
    var r, s1 := TokenTakenReachable();
    hide Reachable, Leads, Inv;
    assert Reachable(r, s1) && EndsWithoutMachine(s1, ProvisionAbort(3), 3);
    ReachNext(r, s1, CreateStart(3));
    var s2 := Next(s1, CreateStart(3));
    ReachNext(r, s2, CreateEnd(3, false));
    var s3 := Next(s2, CreateEnd(3, false));
    assert Reachable(r, s3) && EndsWithoutMachine(s3, ProvisionRestore(3), 3);
  }

  /** A request registered as pending leads to no machine unless an admin approves it. */
  lemma {:induction false} NoMachineWithoutApproval(r: Row, steps: seq<Step>)
    requires Registered(r) && r.status == Pending
    requires forall i | 0 <= i < |steps| :: !steps[i].Approve?
    ensures var s := Exec(Init(r), steps);
            s.created == 0 && Idle(s) && (s.row.status == Pending || s.row.status == Denied || s.row.status == Expired)
    decreases |steps|
  {
    if steps != [] {
      NoMachineWithoutApproval(r, steps[..|steps| - 1]);
      IdleStep(Exec(Init(r), steps[..|steps| - 1]), steps[|steps| - 1]);
    }
  }
}
