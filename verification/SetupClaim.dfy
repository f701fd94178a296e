/** The first-admin claim: the completeSetupAdmin closure of the API server, run by any
    number of email-verification hooks at once.

    Each hook is a program counter over the closure's awaits; between two awaits any other
    hook, or any other part of the server touching the users table, may run.  A statement may
    also fail: Crash is a throw (or a process death) whose statement had no effect, LostReply
    one whose statement was committed before the hook learned of it. */
module SetupClaim {
  import opened JsText

  type UserId = int
  type HookId = int

  datatype Status = Pending | Completed

  datatype User = User(verified: bool, admin: bool)

  /** Where a hook stands: before statement (a), (b), (c) or (d), or at its end. */
  datatype Phase =
    | AtClaim
    | AtFlip
    | AtRollback
    | AtAudit
    | Lost          // the claim hit no row
    | RolledBack    // the flip hit no row and the claim was given back
    | Won           // the role was flipped; the audit row landed or was logged as failed
    | DeadFree      // ended by a throw while holding nothing
    | DeadClaimed   // ended by a throw after claiming and before any flip
    | DeadFlipped   // ended by a throw after the flip

  predicate Finished(p: Phase) {
    !p.AtClaim? && !p.AtFlip? && !p.AtRollback? && !p.AtAudit?
  }

  /** The hook owns the transition of setup_state to 'completed'. */
  predicate Holds(p: Phase) {
    p.AtFlip? || p.AtRollback? || p.DeadClaimed? || HasFlipped(p)
  }

  predicate HasFlipped(p: Phase) {
    p.AtAudit? || p.Won? || p.DeadFlipped?
  }

  datatype Hook = Hook(user: UserId, tenant: Option<string>, phase: Phase)

  datatype Event =
    | RoleFlip(hook: HookId, user: UserId)
    | AuditRow(hook: HookId, user: UserId, tenant: string)

  datatype State = State(
    status: Status,
    completedAt: Option<nat>,
    users: map<UserId, User>,
    hooks: map<HookId, Hook>,
    log: seq<Event>)

  datatype Action =
    | Begin(h: HookId, user: UserId, tenant: Option<string>)
    | Advance(h: HookId, now: nat, defaultTenant: string)     // the next statement succeeds
    | AuditFails(h: HookId)                                   // (d) throws; the closure catches it
    | Crash(h: HookId)                                        // the next statement throws, no effect
    | LostReply(h: HookId, now: nat, defaultTenant: string)   // the next statement commits, then throws
    | TouchUser(u: UserId, row: Option<User>)                 // other code writes or deletes a row

  function Init(users: map<UserId, User>): State {
    State(Pending, None, users, map[], [])
  }

  /** The WHERE clause of the role flip. */
  predicate FlipHits(s: State, u: UserId) {
    u in s.users && s.users[u].verified
  }

  function SetPhase(s: State, h: HookId, p: Phase): State
    requires h in s.hooks
  {
    s.(hooks := s.hooks[h := s.hooks[h].(phase := p)])
  }

  /** The effect on the database of the statement hook h stands at. */
  function Commit(s: State, h: HookId, now: nat, defaultTenant: string): State
    requires h in s.hooks
  {
    var hook := s.hooks[h];
    match hook.phase
    case AtClaim =>
      if s.status.Pending? then s.(status := Completed, completedAt := Some(now)) else s
    case AtFlip =>
      if FlipHits(s, hook.user) then
        s.(users := s.users[hook.user := s.users[hook.user].(admin := true)],
           log := s.log + [RoleFlip(h, hook.user)])
      else s
    case AtRollback => s.(status := Pending, completedAt := None)
    case AtAudit =>
      var tenant := if hook.tenant.Some? then hook.tenant.value else defaultTenant;
      s.(log := s.log + [AuditRow(h, hook.user, tenant)])
    case _ => s
  }

  /** Where hook h continues when its statement's reply arrives. */
  function AfterReply(s: State, h: HookId): Phase
    requires h in s.hooks
  {
    var hook := s.hooks[h];
    match hook.phase
    case AtClaim => if s.status.Pending? then AtFlip else Lost
    case AtFlip => if FlipHits(s, hook.user) then AtAudit else AtRollback
    case AtRollback => RolledBack
    case AtAudit => Won
    case p => p
  }

  /** Where hook h ends when its statement throws. */
  function AfterThrow(s: State, h: HookId, committed: bool): Phase
    requires h in s.hooks
  {
    var hook := s.hooks[h];
    match hook.phase
    case AtClaim => if committed && s.status.Pending? then DeadClaimed else DeadFree
    case AtFlip => if committed && FlipHits(s, hook.user) then DeadFlipped else DeadClaimed
    case AtRollback => if committed then DeadFree else DeadClaimed
    case AtAudit => DeadFlipped
    case p => p
  }

  /** One step.  An action that is not enabled leaves the state alone. */
  function Apply(s: State, a: Action): State {
    match a
    case Begin(h, user, tenant) =>
      if h in s.hooks then s else s.(hooks := s.hooks[h := Hook(user, tenant, AtClaim)])
    case Advance(h, now, dt) =>
      if h in s.hooks then SetPhase(Commit(s, h, now, dt), h, AfterReply(s, h)) else s
    case AuditFails(h) =>
      if h in s.hooks && s.hooks[h].phase.AtAudit? then SetPhase(s, h, Won) else s
    case Crash(h) =>
      if h in s.hooks then SetPhase(s, h, AfterThrow(s, h, false)) else s
    case LostReply(h, now, dt) =>
      if h in s.hooks then SetPhase(Commit(s, h, now, dt), h, AfterThrow(s, h, true)) else s
    case TouchUser(u, row) =>
      s.(users := if row.Some? then s.users[u := row.value] else s.users - {u})
  }

  function Exec(s: State, acts: seq<Action>): State
    decreases |acts|
  {
    if acts == [] then s else Apply(Exec(s, acts[..|acts| - 1]), acts[|acts| - 1])
  }

  // ---------- the invariant ----------

  function Holders(s: State): set<HookId> {
    set h | h in s.hooks && Holds(s.hooks[h].phase)
  }

  function Flips(log: seq<Event>): seq<Event> {
    if log == [] then []
    else
      var e := log[|log| - 1];
      Flips(log[..|log| - 1]) + if e.RoleFlip? then [e] else []
  }

  ghost predicate AuditsFollowFlips(log: seq<Event>) {
    forall i :: 0 <= i < |log| && log[i].AuditRow? ==>
      exists j :: 0 <= j < i && log[j] == RoleFlip(log[i].hook, log[i].user)
  }

  /** setup_state is 'completed' exactly while one hook holds the claim, and the log records
      the flip of that holder and no other. */
  ghost predicate Inv(s: State) {
    && (s.completedAt.Some? <==> s.status.Completed?)
    && (s.status.Pending? ==> Holders(s) == {} && Flips(s.log) == [])
    && (s.status.Completed? ==> exists h :: OwnedBy(s, h))
    && AuditsFollowFlips(s.log)
  }

  ghost predicate OwnedBy(s: State, h: HookId) {
    && h in s.hooks && Holds(s.hooks[h].phase)
    && (forall k :: k in s.hooks && Holds(s.hooks[k].phase) ==> k == h)
    && Flips(s.log) == (if HasFlipped(s.hooks[h].phase) then [RoleFlip(h, s.hooks[h].user)] else [])
  }

  lemma FlipsSnoc(log: seq<Event>, e: Event)
    ensures Flips(log + [e]) == Flips(log) + if e.RoleFlip? then [e] else []
  {
    assert (log + [e])[..|log|] == log;
  }

  lemma {:induction false} FlipsAreLogged(log: seq<Event>, e: Event)
    requires e in Flips(log)
    ensures e in log
  {
    if e != log[|log| - 1] {
      FlipsAreLogged(log[..|log| - 1], e);
    }
  }

  lemma AuditSnoc(log: seq<Event>, e: Event)
    requires AuditsFollowFlips(log)
    requires e.AuditRow? ==> RoleFlip(e.hook, e.user) in log
    ensures AuditsFollowFlips(log + [e])
  {
    var l := log + [e];
    forall i | 0 <= i < |l| && l[i].AuditRow?
      ensures exists j :: 0 <= j < i && l[j] == RoleFlip(l[i].hook, l[i].user)
    {
      if i < |log| {
        var j :| 0 <= j < i && log[j] == RoleFlip(log[i].hook, log[i].user);
        assert l[j] == RoleFlip(l[i].hook, l[i].user);
      } else {
        var j :| 0 <= j < |log| && log[j] == RoleFlip(e.hook, e.user);
        assert l[j] == RoleFlip(l[i].hook, l[i].user);
      }
    }
  }

  lemma OnlyHolder(s: State, o: HookId)
    requires OwnedBy(s, o)
    ensures Holders(s) == {o}
  {
    forall k ensures k in Holders(s) <==> k == o {
    }
  }

  /** Only the hook that acts can gain or lose the claim. */
  lemma StepKeepsInv(s: State, a: Action)
    requires Inv(s)
    ensures Inv(Apply(s, a))
  {
    var t := Apply(s, a);
    if t == s { return; }
    if a.Begin? || a.TouchUser? {
      if s.status.Completed? {
        var o :| OwnedBy(s, o);
        assert OwnedBy(t, o);
      }
      assert Holders(t) == Holders(s);
    } else {
      HookStepKeepsInv(s, a);
    }
  }

  predicate HookStep(s: State, a: Action) {
    (a.Advance? || a.AuditFails? || a.Crash? || a.LostReply?) && a.h in s.hooks
  }

  /** While o holds the claim, no other hook's step touches the status or the log. */
  lemma BystanderStep(s: State, a: Action, o: HookId)
    requires OwnedBy(s, o) && s.status.Completed? && HookStep(s, a) && a.h != o
    ensures var t := Apply(s, a);
            OwnedBy(t, o) && t == s.(hooks := t.hooks) && !Holds(t.hooks[a.h].phase)
  {
    assert !Holds(s.hooks[a.h].phase);
  }

  /** What the holder's step may add to the log. */
  ghost predicate LogGrows(s: State, t: State, h: HookId)
    requires h in s.hooks
  {
    var hook := s.hooks[h];
    || t.log == s.log
    || (&& |t.log| == |s.log| + 1
        && var e := t.log[|s.log|];
           && t.log == s.log + [e] && e.hook == h && e.user == hook.user
           && (e.RoleFlip? ==> !HasFlipped(hook.phase) && t.status.Completed?)
           && (e.AuditRow? ==> HasFlipped(hook.phase)))
  }

  lemma HolderStepLog(s: State, a: Action)
    requires HookStep(s, a) && Holds(s.hooks[a.h].phase) && s.status.Completed?
    ensures LogGrows(s, Apply(s, a), a.h)
  {
  }

  lemma HolderStepRows(s: State, a: Action)
    requires HookStep(s, a) && Holds(s.hooks[a.h].phase) && s.status.Completed?
    ensures var t := Apply(s, a); var p, q := s.hooks[a.h].phase, t.hooks[a.h].phase;
      && t.hooks == s.hooks[a.h := s.hooks[a.h].(phase := q)]
      && (t.status.Completed? <==> Holds(q))
      && (t.status.Completed? ==> t.completedAt == s.completedAt)
      && (t.status.Pending? ==> t.completedAt.None? && t.log == s.log && !HasFlipped(p))
      && (HasFlipped(q) <==> HasFlipped(p) || (t.log == s.log + [RoleFlip(a.h, s.hooks[a.h].user)]))
  {
  }

  lemma HolderStep(s: State, a: Action)
    requires HookStep(s, a) && OwnedBy(s, a.h) && s.status.Completed?
    ensures var t := Apply(s, a);
            if t.status.Completed? then OwnedBy(t, a.h) && t.completedAt == s.completedAt
            else Holders(t) == {} && t.completedAt.None? && Flips(t.log) == []
  {
    var t := Apply(s, a);
    HolderStepRows(s, a);
    HolderStepLog(s, a);
    if t.log != s.log { FlipsSnoc(s.log, t.log[|s.log|]); }
    if t.status.Pending? {
      forall k ensures k !in Holders(t) {
        assert k in s.hooks && k != a.h ==> !Holds(s.hooks[k].phase);
      }
    }
  }

  lemma FreeStep(s: State, a: Action)
    requires HookStep(s, a) && Inv(s) && s.status.Pending?
    ensures var t := Apply(s, a);
            && t.log == s.log
            && (if t.status.Completed? then OwnedBy(t, a.h) && t.completedAt.Some?
                else Holders(t) == {} && t.completedAt.None?)
  {
    var t := Apply(s, a);
    assert a.h !in Holders(s);
    forall k | k in t.hooks && k != a.h ensures !Holds(t.hooks[k].phase) {
      assert k !in Holders(s);
    }
  }

  lemma HookStepKeepsInv(s: State, a: Action)
    requires Inv(s) && HookStep(s, a)
    ensures Inv(Apply(s, a))
  {
    var t := Apply(s, a);
    if s.status.Pending? {
      FreeStep(s, a);
    } else {
      var o :| OwnedBy(s, o);
      if o != a.h {
        BystanderStep(s, a, o);
      } else {
        HolderStepLog(s, a);
        HolderStep(s, a);
        if t.log != s.log {
          if HasFlipped(s.hooks[o].phase) { FlipsAreLogged(s.log, RoleFlip(o, s.hooks[o].user)); }
          AuditSnoc(s.log, t.log[|s.log|]);
        }
      }
    }
  }

  lemma {:induction false} RunKeepsInv(s: State, acts: seq<Action>)
    requires Inv(s)
    ensures Inv(Exec(s, acts))
    decreases |acts|
  {
    if acts != [] {
      RunKeepsInv(s, acts[..|acts| - 1]);
      StepKeepsInv(Exec(s, acts[..|acts| - 1]), acts[|acts| - 1]);
    }
  }

  lemma InitInv(users: map<UserId, User>)
    ensures Inv(Init(users))
  {
  }

  // ---------- the server's rows, updated in place ----------

  /** The rows the hooks share and each hook's place in the closure. */
  class Server {
    var status: Status
    var completedAt: Option<nat>
    var users: map<UserId, User>
    var hooks: map<HookId, Hook>
    var log: seq<Event>

    function View(): State
      reads this
    {
      State(status, completedAt, users, hooks, log)
    }

    constructor (rows: map<UserId, User>)
      ensures View() == Init(rows)
    {
      status, completedAt, users, hooks, log := Pending, None, rows, map[], [];
    }

    /** UPDATE setup_state SET 'completed' WHERE 'pending' RETURNING. */
    method ClaimSetup(now: nat) returns (rowCount: nat)
      modifies this`status, this`completedAt
      ensures rowCount == (if old(status).Pending? then 1 else 0)
      ensures status == Completed
      ensures completedAt == if rowCount == 1 then Some(now) else old(completedAt)
    {
      rowCount := 0;
      if status.Pending? {
        status, completedAt, rowCount := Completed, Some(now), 1;
      }
    }

    /** UPDATE users SET role = 'admin' WHERE id = u AND email_verified RETURNING. */
    method FlipRole(h: HookId, u: UserId) returns (rowCount: nat)
      modifies this`users, this`log
      ensures rowCount == (if old(FlipHits(View(), u)) then 1 else 0)
      ensures rowCount == 0 ==> users == old(users) && log == old(log)
      ensures rowCount == 1 ==> users == old(users)[u := old(users)[u].(admin := true)]
                                && log == old(log) + [RoleFlip(h, u)]
    {
      rowCount := 0;
      if u in users && users[u].verified {
        users := users[u := users[u].(admin := true)];
        log := log + [RoleFlip(h, u)];
        rowCount := 1;
      }
    }

    /** One uninterrupted stretch of the closure, up to the next await's reply. */
    method Resume(h: HookId, now: nat, defaultTenant: string)
      modifies this
      ensures View() == Apply(old(View()), Advance(h, now, defaultTenant))
    {
      if h !in hooks { return; }
      var hook := hooks[h];
      var next := hook.phase;
      match hook.phase {
        case AtClaim =>
          var n := ClaimSetup(now);
          next := if n > 0 then AtFlip else Lost;
        case AtFlip =>
          var n := FlipRole(h, hook.user);
          next := if n == 0 then AtRollback else AtAudit;
        case AtRollback =>
          status, completedAt := Pending, None;
          next := RolledBack;
        case AtAudit =>
          var tenant := if hook.tenant.Some? then hook.tenant.value else defaultTenant;
          log := log + [AuditRow(h, hook.user, tenant)];
          next := Won;
        case _ =>
      }
      hooks := hooks[h := hook.(phase := next)];
    }

    /** A verified user's hook is called. */
    method Begin(h: HookId, user: UserId, tenant: Option<string>)
      modifies this`hooks
      ensures View() == Apply(old(View()), Action.Begin(h, user, tenant))
    {
      if h !in hooks { hooks := hooks[h := Hook(user, tenant, AtClaim)]; }
    }

    /** The statement the hook stands at throws, with or without having been committed. */
    method Throw(h: HookId, committed: bool, now: nat, defaultTenant: string)
      modifies this
      ensures View() == Apply(old(View()), if committed then LostReply(h, now, defaultTenant) else Crash(h))
    {
      if h !in hooks { return; }
      var end := AfterThrow(View(), h, committed);
      if committed { Resume(h, now, defaultTenant); }
      hooks := hooks[h := hooks[h].(phase := end)];
    }

    method Perform(a: Action)
      modifies this
      ensures View() == Apply(old(View()), a)
    {
      match a {
        case Begin(h, user, tenant) => Begin(h, user, tenant);
        case Advance(h, now, defaultTenant) => Resume(h, now, defaultTenant);
        case AuditFails(h) => if h in hooks && hooks[h].phase.AtAudit? { hooks := hooks[h := hooks[h].(phase := Won)]; }
        case Crash(h) => Throw(h, false, 0, "");
        case LostReply(h, now, defaultTenant) => Throw(h, true, now, defaultTenant);
        case TouchUser(u, row) => users := if row.Some? then users[u := row.value] else users - {u};
      }
    }

    /** Whatever order the scheduler and the failures pick. */
    method Drive(schedule: seq<Action>)
      requires Inv(View())
      modifies this
      ensures View() == Exec(old(View()), schedule)
      ensures Inv(View())
    {
      ghost var was := View();
      for i := 0 to |schedule|
        invariant View() == Exec(was, schedule[..i])
        invariant Inv(View())
      {
        assert schedule[..i + 1][..i] == schedule[..i];
        StepKeepsInv(View(), schedule[i]);
        Perform(schedule[i]);
      }
      assert schedule[..|schedule|] == schedule;
    }
  }
}
