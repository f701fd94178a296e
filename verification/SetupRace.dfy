/** The first-admin claim with both of its contenders: the email-verification hooks of SetupClaim
    and the bearer-token branch of POST /api/setup/admin, which claims the same row, creates its
    user, flips the role without looking at the address, and on a failed flip deletes the user
    and gives the claim back. */
module SetupRace {
  import opened JsText
  import opened SetupClaim

  type RouteId = int

  /** Where a request stands.  `hit` is history: whether its role flip was committed, which the
      request itself does not know after a throw. */
  datatype RoutePhase =
    | Claiming
    | SigningUp
    | Flipping(user: UserId)
    | Deleting(user: UserId, hit: bool)      // the flip threw; its user is to be deleted
    | Restoring(hit: bool)                   // about to set the status back to 'pending'
    | Auditing(user: UserId, hit: bool)      // the flip replied; its row count is not looked at
    | Outside                                // over without ever holding the claim
    | GaveBack(hit: bool)                    // over, the claim given back
    | Kept(hit: bool, made: Option<UserId>)  // over with the claim still taken

  predicate RouteHolds(p: RoutePhase) { !p.Claiming? && !p.Outside? && !p.GaveBack? }

  predicate RouteFlipped(p: RoutePhase) {
    (p.Deleting? || p.Restoring? || p.Auditing? || p.Kept?) && p.hit
  }

  predicate RouteFinished(p: RoutePhase) { p.Outside? || p.GaveBack? || p.Kept? }

  /** How a statement ends: with its reply, with an exception, or with the process; the last two
      with or without the statement having been committed. */
  datatype Ending = Replied | Threw(committed: bool) | Died(committed: bool)

  predicate Commits(how: Ending) { how.Replied? || how.committed }

  /** Both kinds of contender over the same rows; `promoted` lists the users the requests flipped. */
  datatype Race = Race(base: State, routes: map<RouteId, RoutePhase>, promoted: seq<UserId>)

  datatype RaceAction =
    | OfHook(a: Action)
    | BeginRoute(r: RouteId)
    | OfRoute(r: RouteId, how: Ending, now: nat, created: Option<UserId>)

  function Start(users: map<UserId, User>): Race { Race(Init(users), map[], []) }

  /** The sign-up made a row; anything else it answers is an error. */
  predicate SignsUp(users: map<UserId, User>, created: Option<UserId>) {
    created.Some? && created.value !in users
  }

  /** The effect on the database of the statement a request stands at. */
  function Effect(s: Race, p: RoutePhase, now: nat, created: Option<UserId>): Race {
    var b := s.base;
    match p
    case Claiming =>
      if b.status.Pending? then s.(base := b.(status := Completed, completedAt := Some(now))) else s
    case SigningUp =>
      if SignsUp(b.users, created) then s.(base := b.(users := b.users[created.value := User(false, false)])) else s
    case Flipping(u) =>
      if u in b.users then
        s.(base := b.(users := b.users[u := b.users[u].(admin := true)]), promoted := s.promoted + [u])
      else s
    case Deleting(u, _) => s.(base := b.(users := b.users - {u}))
    case Restoring(_) => s.(base := b.(status := Pending, completedAt := None))
    case _ => s
  }

  /** Where the request goes from p. */
  function Next(s: Race, p: RoutePhase, how: Ending, created: Option<UserId>): RoutePhase {
    match p
    case Claiming =>
      if !Commits(how) || s.base.status.Completed? then Outside
      else if how.Replied? then SigningUp else Kept(false, None)
    case SigningUp =>
      if !how.Replied? then Kept(false, None)
      else if SignsUp(s.base.users, created) then Flipping(created.value) else Restoring(false)
    case Flipping(u) =>
      var hit := Commits(how) && u in s.base.users;
      if how.Replied? then Auditing(u, hit) else if how.Threw? then Deleting(u, hit) else Kept(hit, Some(u))
    case Deleting(u, hit) => if how.Died? then Kept(hit, Some(u)) else Restoring(hit)
    case Restoring(hit) => if Commits(how) then GaveBack(hit) else Kept(hit, None)
    case Auditing(u, hit) => Kept(hit, Some(u))
    case _ => p
  }

  function RaceApply(s: Race, a: RaceAction): Race {
    match a
    case OfHook(act) => s.(base := Apply(s.base, act))
    case BeginRoute(r) => if r in s.routes then s else s.(routes := s.routes[r := Claiming])
    case OfRoute(r, how, now, created) =>
      if r !in s.routes then s
      else
        var p := s.routes[r];
        var t := if Commits(how) then Effect(s, p, now, created) else s;
        t.(routes := s.routes[r := Next(s, p, how, created)])
  }

  function RaceExec(s: Race, acts: seq<RaceAction>): Race
    decreases |acts|
  {
    if acts == [] then s else RaceApply(RaceExec(s, acts[..|acts| - 1]), acts[|acts| - 1])
  }

  // ---------- who holds the claim ----------

  datatype Owner = ByHook(h: HookId) | ByRoute(r: RouteId)

  predicate HoldsIn(s: Race, o: Owner) {
    match o
    case ByHook(h) => h in s.base.hooks && Holds(s.base.hooks[h].phase)
    case ByRoute(r) => r in s.routes && RouteHolds(s.routes[r])
  }

  predicate FlippedIn(s: Race, o: Owner) {
    match o
    case ByHook(h) => h in s.base.hooks && HasFlipped(s.base.hooks[h].phase)
    case ByRoute(r) => r in s.routes && RouteFlipped(s.routes[r])
  }

  ghost predicate SoleOwner(s: Race, o: Owner) {
    HoldsIn(s, o) && forall p :: HoldsIn(s, p) ==> p == o
  }

  /** Requests that gave the claim back although their flip had been committed. */
  function Reopeners(s: Race): set<RouteId> {
    set r | r in s.routes && s.routes[r] == GaveBack(true)
  }

  /** All role flips of a run, by hooks and by requests. */
  function AllFlips(s: Race): nat { |Flips(s.base.log)| + |s.promoted| }

  function One(b: bool): nat { if b then 1 else 0 }

  /** The claim is a token, and every flip is accounted for: it is the holder's, or that of a
      request that gave the claim back after it. */
  ghost predicate RaceInv(s: Race) {
    && (s.base.completedAt.Some? <==> s.base.status.Completed?)
    && (s.base.status.Pending? ==> (forall o :: !HoldsIn(s, o)) && AllFlips(s) == |Reopeners(s)|)
    && (s.base.status.Completed? ==>
          exists o :: SoleOwner(s, o) && AllFlips(s) == |Reopeners(s)| + One(FlippedIn(s, o)))
  }

  // ---------- one step ----------

  /** A step of x as the token sees it. */
  ghost predicate StepOf(s: Race, t: Race, x: Owner) {
    && (forall o :: o != x ==> (HoldsIn(t, o) <==> HoldsIn(s, o)) && (FlippedIn(t, o) <==> FlippedIn(s, o)))
    && (if HoldsIn(s, x) then
          && (t.base.status.Completed? <==> HoldsIn(t, x))
          && AllFlips(t) + |Reopeners(s)| + One(FlippedIn(s, x))
               == AllFlips(s) + |Reopeners(t)| + One(HoldsIn(t, x) && FlippedIn(t, x))
        else
          && (HoldsIn(t, x) ==> s.base.status.Pending? && !FlippedIn(t, x))
          && (t.base.status.Completed? <==> s.base.status.Completed? || HoldsIn(t, x))
          && AllFlips(t) == AllFlips(s) && |Reopeners(t)| == |Reopeners(s)|)
    && (t.base.completedAt.Some? <==> t.base.status.Completed?)
  }

  predicate StepEnabled(s: Race, a: RaceAction) {
    match a
    case OfHook(act) => HookStep(s.base, act)
    case BeginRoute(_) => false
    case OfRoute(r, _, _, _) => r in s.routes
  }

  function Actor(s: Race, a: RaceAction): Owner
    requires StepEnabled(s, a)
  {
    if a.OfHook? then ByHook(a.a.h) else ByRoute(a.r)
  }

  /** The role flip a hook's step logs, if it logs one. */
  predicate HookFlips(s: State, a: Action)
    requires HookStep(s, a)
  {
    s.hooks[a.h].phase.AtFlip? && (a.Advance? || a.LostReply?) && FlipHits(s, s.hooks[a.h].user)
  }

  lemma HookLog(s: State, a: Action)
    requires HookStep(s, a)
    ensures |Flips(Apply(s, a).log)| == |Flips(s.log)| + One(HookFlips(s, a))
  {
    var t := Apply(s, a);
    if t.log != s.log { FlipsSnoc(s.log, t.log[|s.log|]); }
  }

  lemma HookRows(s: State, a: Action)
    requires HookStep(s, a) && (s.completedAt.Some? <==> s.status.Completed?)
    requires Holds(s.hooks[a.h].phase) ==> s.status.Completed?
    ensures var t := Apply(s, a); var p, q := s.hooks[a.h].phase, t.hooks[a.h].phase;
      && t.hooks == s.hooks[a.h := s.hooks[a.h].(phase := q)]
      && (t.completedAt.Some? <==> t.status.Completed?)
      && (HasFlipped(q) <==> HasFlipped(p) || HookFlips(s, a))
      && (HookFlips(s, a) ==> !HasFlipped(p))
      && (HasFlipped(q) ==> HasFlipped(p) || Holds(p))
      && (Holds(p) ==> (t.status.Completed? <==> Holds(q)))
      && (!Holds(p) ==> !HookFlips(s, a) && (Holds(q) ==> s.status.Pending?)
                        && (t.status.Completed? <==> s.status.Completed? || Holds(q)))
  {
  }

  lemma HookIsStep(s: Race, act: Action)
    requires HookStep(s.base, act) && (s.base.completedAt.Some? <==> s.base.status.Completed?)
    requires HoldsIn(s, ByHook(act.h)) ==> s.base.status.Completed?
    ensures StepOf(s, RaceApply(s, OfHook(act)), ByHook(act.h))
  {
    HookLog(s.base, act);
    HookRows(s.base, act);
    HookShape(s, Apply(s.base, act), act.h, HookFlips(s.base, act));
  }

  lemma HookShape(s: Race, b: State, h: HookId, flips: bool)
    requires h in s.base.hooks && h in b.hooks && b.hooks == s.base.hooks[h := b.hooks[h]]
    requires b.completedAt.Some? <==> b.status.Completed?
    requires |Flips(b.log)| == |Flips(s.base.log)| + One(flips)
    requires var p, q := s.base.hooks[h].phase, b.hooks[h].phase;
      && (HasFlipped(q) <==> HasFlipped(p) || flips) && (flips ==> !HasFlipped(p))
      && (HasFlipped(q) ==> HasFlipped(p) || Holds(p))
      && (Holds(p) ==> (b.status.Completed? <==> Holds(q)))
      && (!Holds(p) ==> !flips && (Holds(q) ==> s.base.status.Pending?)
                        && (b.status.Completed? <==> s.base.status.Completed? || Holds(q)))
    ensures StepOf(s, s.(base := b), ByHook(h))
  {
    assert Reopeners(s.(base := b)) == Reopeners(s);
  }

  lemma ReopenersOfStep(s: Race, r: RouteId, q: RoutePhase)
    requires r in s.routes && s.routes[r] != GaveBack(true)
    ensures var t := s.(routes := s.routes[r := q]);
            |Reopeners(t)| == |Reopeners(s)| + One(q == GaveBack(true))
  {
    var t := s.(routes := s.routes[r := q]);
    if q == GaveBack(true) {
      assert Reopeners(t) == Reopeners(s) + {r};
    } else {
      assert Reopeners(t) == Reopeners(s);
    }
  }

  lemma RouteIsStep(s: Race, a: RaceAction)
    requires a.OfRoute? && a.r in s.routes && (s.base.completedAt.Some? <==> s.base.status.Completed?)
    requires HoldsIn(s, ByRoute(a.r)) ==> s.base.status.Completed?
    ensures StepOf(s, RaceApply(s, a), ByRoute(a.r))
  {
    var t := RaceApply(s, a);
    var p, q := s.routes[a.r], t.routes[a.r];
    if p == GaveBack(true) {
      assert t == s.(routes := s.routes[a.r := p]);
      assert s.routes[a.r := p] == s.routes;
    } else {
      ReopenersOfStep(s, a.r, q);
      assert Reopeners(t) == Reopeners(s.(routes := t.routes));
    }
  }

  lemma StepKeepsToken(s: Race, t: Race, x: Owner)
    requires RaceInv(s) && StepOf(s, t, x)
    ensures RaceInv(t)
  {
    if HoldsIn(s, x) {
      assert SoleOwner(s, x);
      if HoldsIn(t, x) { assert SoleOwner(t, x); }
    } else if HoldsIn(t, x) {
      assert SoleOwner(t, x);
    } else if s.base.status.Completed? {
      var o :| SoleOwner(s, o) && AllFlips(s) == |Reopeners(s)| + One(FlippedIn(s, o));
      assert SoleOwner(t, o);
    }
  }

  lemma QuietStep(s: Race, a: RaceAction)
    requires RaceInv(s) && !StepEnabled(s, a)
    ensures RaceInv(RaceApply(s, a))
  {
    var t := RaceApply(s, a);
    assert Reopeners(t) == Reopeners(s);
    assert forall o :: HoldsIn(t, o) <==> HoldsIn(s, o);
    if s.base.status.Completed? {
      var o :| SoleOwner(s, o) && AllFlips(s) == |Reopeners(s)| + One(FlippedIn(s, o));
      assert SoleOwner(t, o);
    }
  }

  lemma RaceStepKeepsInv(s: Race, a: RaceAction)
    requires RaceInv(s)
    ensures RaceInv(RaceApply(s, a))
  {
    if !StepEnabled(s, a) {
      QuietStep(s, a);
    } else {
      if a.OfHook? { HookIsStep(s, a.a); } else { RouteIsStep(s, a); }
      StepKeepsToken(s, RaceApply(s, a), Actor(s, a));
    }
  }

  lemma {:induction false} RaceKeepsInv(users: map<UserId, User>, acts: seq<RaceAction>)
    ensures RaceInv(RaceExec(Start(users), acts))
    decreases |acts|
  {
    var n := |acts| - 1;
    if acts == [] {
      assert Reopeners(Start(users)) == {};
    } else {
      RaceKeepsInv(users, acts[..n]);
      RaceStepKeepsInv(RaceExec(Start(users), acts[..n]), acts[n]);
    }
  }

  // ---------- the rows and the requests, updated in place ----------

  /** The rows of the database with the hooks on them, and each request's place in the handler. */
  class Gate {
    const rows: Server
    var routes: map<RouteId, RoutePhase>
    var promoted: seq<UserId>

    function View(): Race
      reads this, rows
    {
      Race(rows.View(), routes, promoted)
    }

    constructor (users: map<UserId, User>)
      ensures View() == Start(users) && fresh(rows)
    {
      rows := new Server(users);
      routes, promoted := map[], [];
    }

    /** The statement a request stands at, where it is committed. */
    method Execute(p: RoutePhase, now: nat, created: Option<UserId>)
      modifies this`promoted, rows
      ensures View() == Effect(old(View()), p, now, created)
    {
      match p {
        case Claiming =>
          var rowCount := rows.ClaimSetup(now);
        case SigningUp =>
          if SignsUp(rows.users, created) { rows.users := rows.users[created.value := User(false, false)]; }
        case Flipping(u) =>
          if u in rows.users {
            rows.users := rows.users[u := rows.users[u].(admin := true)];
            promoted := promoted + [u];
          }
        case Deleting(u, _) => rows.users := rows.users - {u};
        case Restoring(_) => rows.status, rows.completedAt := Pending, None;
        case _ =>
      }
    }

    /** One stretch of the handler: the statement it stands at and what it does about the outcome. */
    method Resume(r: RouteId, how: Ending, now: nat, created: Option<UserId>)
      modifies this, rows
      ensures View() == RaceApply(old(View()), OfRoute(r, how, now, created))
    {
      if r !in routes { return; }
      var p := routes[r];
      var next := Next(View(), p, how, created);
      if Commits(how) { Execute(p, now, created); }
      routes := routes[r := next];
    }

    method Perform(a: RaceAction)
      modifies this, rows
      ensures View() == RaceApply(old(View()), a)
    {
      match a {
        case OfHook(act) => rows.Perform(act);
        case BeginRoute(r) => if r !in routes { routes := routes[r := Claiming]; }
        case OfRoute(r, how, now, created) => Resume(r, how, now, created);
      }
    }

    /** Any interleaving of hooks, requests and failures, from an empty start. */
    method Drive(ghost users: map<UserId, User>, schedule: seq<RaceAction>)
      requires View() == Start(users)
      modifies this, rows
      ensures View() == RaceExec(Start(users), schedule)
      ensures RaceInv(View())
    {
      for i := 0 to |schedule|
        invariant View() == RaceExec(Start(users), schedule[..i])
      {
        assert schedule[..i + 1][..i] == schedule[..i];
        Perform(schedule[i]);
      }
      assert schedule[..|schedule|] == schedule;
      RaceKeepsInv(users, schedule);
    }
  }
}
