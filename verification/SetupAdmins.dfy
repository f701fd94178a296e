/** How many admins the first-admin claim can make when bearer-token requests race the hooks. */
module SetupAdmins {
  import opened JsText
  import opened SetupClaim
  import opened SetupRace
  import opened SetupRaceOutcome

  function Admins(s: Race): set<UserId> { set u | u in s.base.users && s.base.users[u].admin }

  /** Other code makes an admin. */
  predicate OutsidePromotion(s: Race, a: RaceAction) {
    a.OfHook? && a.a.TouchUser? && a.a.row.Some? && a.a.row.value.admin && a.a.u !in Admins(s)
  }

  /** A request gives the claim back while an admin stands. */
  predicate StrayStep(s: Race, a: RaceAction) { ReopenStep(s, a) && Admins(s) != {} }

  /** Nobody is admin before the present holder has flipped a role. */
  ghost predicate ClosedInv(s: Race) {
    && RaceInv(s) && |Admins(s)| <= 1
    && (s.base.status.Pending? ==> Admins(s) == {})
    && forall o :: SoleOwner(s, o) && !FlippedIn(s, o) ==> Admins(s) == {}
  }

  lemma HookStepAdmins(s: Race, a: RaceAction)
    requires a.OfHook? && HookStep(s.base, a.a)
    ensures var t, h := RaceApply(s, a), a.a.h;
            Admins(t) == Admins(s) + if HookFlips(s.base, a.a) then {s.base.hooks[h].user} else {}
  {
    var t := RaceApply(s, a);
    var made := if HookFlips(s.base, a.a) then {s.base.hooks[a.a.h].user} else {};
    assert t.base.users == s.base.users || (HookFlips(s.base, a.a) && t.base.users ==
      s.base.users[s.base.hooks[a.a.h].user := s.base.users[s.base.hooks[a.a.h].user].(admin := true)]);
    forall u ensures u in Admins(t) <==> u in Admins(s) + made {
    }
  }

  lemma RouteStepAdmins(s: Race, a: RaceAction)
    requires a.OfRoute? && a.r in s.routes
    ensures var t, p := RaceApply(s, a), s.routes[a.r];
            Admins(t) == if FlipStep(s, a) then Admins(s) + {p.user}
                         else if p.Deleting? && Commits(a.how) then Admins(s) - {p.user}
                         else Admins(s)
  {
    var t := RaceApply(s, a);
    var p := s.routes[a.r];
    forall u ensures u in Admins(t) <==>
      (if FlipStep(s, a) then u in Admins(s) || u == p.user
       else if p.Deleting? && Commits(a.how) then u in Admins(s) && u != p.user
       else u in Admins(s))
    {
    }
  }

  lemma OtherStepAdmins(s: Race, a: RaceAction)
    requires StepEnabled(s, a) && !HoldsIn(s, Actor(s, a))
    ensures Admins(RaceApply(s, a)) == Admins(s)
  {
    if a.OfHook? { HookStepAdmins(s, a); } else { RouteStepAdmins(s, a); }
  }

  lemma SubsetIsSmaller(a: set<UserId>, b: set<UserId>)
    requires a <= b
    ensures |a| <= |b|
  {
    assert b == a + (b - a);
  }

  lemma OwnHookStepAdmins(s: Race, a: RaceAction)
    requires a.OfHook? && HookStep(s.base, a.a) && Holds(s.base.hooks[a.a.h].phase) && s.base.status.Completed?
    requires |Admins(s)| <= 1 && (s.base.completedAt.Some? <==> s.base.status.Completed?)
    requires !HasFlipped(s.base.hooks[a.a.h].phase) ==> Admins(s) == {}
    ensures var t := RaceApply(s, a);
            |Admins(t)| <= 1 && (!HasFlipped(t.base.hooks[a.a.h].phase) ==> Admins(t) == {})
  {
    HookStepAdmins(s, a);
    HookRows(s.base, a.a);
  }

  lemma RouteFlips(s: Race, a: RaceAction)
    requires a.OfRoute? && a.r in s.routes && RouteHolds(s.routes[a.r])
    ensures var t, p := RaceApply(s, a), s.routes[a.r];
      && (FlipStep(s, a) ==> !RouteFlipped(p))
      && (RouteHolds(t.routes[a.r]) ==> (RouteFlipped(t.routes[a.r]) <==> RouteFlipped(p) || FlipStep(s, a)))
      && (!RouteHolds(t.routes[a.r]) ==> !FlipStep(s, a) && (RouteFlipped(p) ==> ReopenStep(s, a)))
  {
  }

  lemma OwnRouteStepAdmins(s: Race, a: RaceAction)
    requires a.OfRoute? && a.r in s.routes && RouteHolds(s.routes[a.r]) && !StrayStep(s, a)
    requires |Admins(s)| <= 1 && (!RouteFlipped(s.routes[a.r]) ==> Admins(s) == {})
    ensures var t := RaceApply(s, a); var q := t.routes[a.r];
            |Admins(t)| <= 1 && (!(RouteHolds(q) && RouteFlipped(q)) ==> Admins(t) == {})
  {
    RouteStepAdmins(s, a);
    RouteFlips(s, a);
    var p := s.routes[a.r];
    if p.Deleting? { SubsetIsSmaller(Admins(s) - {p.user}, Admins(s)); }
  }

  lemma OutsideStepAdmins(s: Race, a: RaceAction)
    requires ClosedInv(s) && !OutsidePromotion(s, a) && !StepEnabled(s, a)
    ensures ClosedInv(RaceApply(s, a))
  {
    var t := RaceApply(s, a);
    QuietStep(s, a);
    assert Admins(t) <= Admins(s);
    SubsetIsSmaller(Admins(t), Admins(s));
    forall o | SoleOwner(t, o) && !FlippedIn(t, o) ensures Admins(t) == {} {
      assert forall p :: HoldsIn(t, p) <==> HoldsIn(s, p);
      assert SoleOwner(s, o) && !FlippedIn(s, o);
    }
  }

  lemma ActorKeepsClosed(s: Race, a: RaceAction, x: Owner)
    requires ClosedInv(s) && !StrayStep(s, a) && StepEnabled(s, a) && x == Actor(s, a)
    requires StepOf(s, RaceApply(s, a), x) && RaceInv(RaceApply(s, a))
    ensures ClosedInv(RaceApply(s, a))
  {
    var t := RaceApply(s, a);
    if HoldsIn(s, x) {
      assert SoleOwner(s, x);
      if a.OfHook? { OwnHookStepAdmins(s, a); } else { OwnRouteStepAdmins(s, a); }
    } else {
      OtherStepAdmins(s, a);
      forall o | SoleOwner(t, o) && !FlippedIn(t, o) ensures Admins(t) == {} {
        if o != x { assert SoleOwner(s, o); }
      }
    }
  }

  lemma StepKeepsClosed(s: Race, a: RaceAction)
    requires ClosedInv(s) && !OutsidePromotion(s, a) && !StrayStep(s, a)
    ensures ClosedInv(RaceApply(s, a))
  {
    RaceStepKeepsInv(s, a);
    if !StepEnabled(s, a) {
      OutsideStepAdmins(s, a);
    } else {
      if a.OfHook? { HookIsStep(s, a.a); } else { RouteIsStep(s, a); }
      ActorKeepsClosed(s, a, Actor(s, a));
    }
  }

  // ---------- a schedule and the states it runs through ----------

  /** The states before each step of the schedule and after the last. */
  function Trace(users: map<UserId, User>, acts: seq<RaceAction>): (states: seq<Race>)
    ensures |states| == |acts| + 1 && states[|acts|] == RaceExec(Start(users), acts)
    ensures forall m :: 0 <= m <= |acts| ==> states[m] == RaceExec(Start(users), acts[..m])
  {
    assert acts[..|acts|] == acts;
    seq(|acts| + 1, m requires 0 <= m <= |acts| => RaceExec(Start(users), acts[..m]))
  }

  /** What the lemmas below need of it. */
  ghost predicate IsRun(states: seq<Race>, acts: seq<RaceAction>) {
    && |states| == |acts| + 1 && states[0].routes == map[]
    && forall m :: 0 <= m < |acts| ==> states[m + 1] == RaceApply(states[m], acts[m])
  }

  ghost predicate KeepsToken(states: seq<Race>) { forall m :: 0 <= m < |states| ==> RaceInv(states[m]) }

  lemma TraceIsRun(users: map<UserId, User>, acts: seq<RaceAction>)
    ensures IsRun(Trace(users, acts), acts) && KeepsToken(Trace(users, acts))
  {
    var states := Trace(users, acts);
    forall m | 0 <= m < |states| ensures RaceInv(states[m]) { RaceKeepsInv(users, acts[..m]); }
    forall m | 0 <= m < |acts| ensures states[m + 1] == RaceApply(states[m], acts[m]) { AfterStep(users, acts, m); }
  }

  // ---------- how an admin comes to be left behind ----------

  predicate IsStepOf(a: RaceAction, r: RouteId) { a.OfRoute? && a.r == r }

  predicate StandsIn(s: Race, r: RouteId, p: RoutePhase) { r in s.routes && s.routes[r] == p }

  /** A committed flip of u whose reply request r does not get. */
  predicate LosesReply(s: Race, a: RaceAction, r: RouteId, u: UserId) {
    IsStepOf(a, r) && a.how == Threw(true) && StandsIn(s, r, Flipping(u)) && u in s.base.users
  }

  /** A clean-up that fails: the DELETE throws and has no effect. */
  predicate FailsToDelete(s: Race, a: RaceAction, r: RouteId, u: UserId) {
    IsStepOf(a, r) && a.how == Threw(false) && StandsIn(s, r, Deleting(u, true))
  }

  /** A committed rollback after a committed flip. */
  predicate GivesBack(s: Race, a: RaceAction, r: RouteId) {
    IsStepOf(a, r) && Commits(a.how) && StandsIn(s, r, Restoring(true))
  }

  /** Other code deletes u's row or makes it an ordinary user's. */
  predicate TakesAway(a: RaceAction, u: UserId) {
    a.OfHook? && a.a.TouchUser? && a.a.u == u && !(a.a.row.Some? && a.a.row.value.admin)
  }

  ghost predicate LeftAlone(acts: seq<RaceAction>, u: UserId, lo: nat, hi: nat)
    requires hi <= |acts|
  {
    forall m :: lo <= m < hi ==> !TakesAway(acts[m], u)
  }

  /** The schedule leaves u an admin behind: request r loses the reply to its flip of u, later
      fails to delete u, and later still gives the claim back; from the flip on no other code
      takes u's role away. */
  ghost predicate LeavesAdmin(states: seq<Race>, acts: seq<RaceAction>, r: RouteId, u: UserId, k: nat, d: nat, i: nat)
    requires |states| == |acts| + 1
  {
    && k < d < i < |acts|
    && LosesReply(states[k], acts[k], r, u) && FailsToDelete(states[d], acts[d], r, u) && GivesBack(states[i], acts[i], r)
    && LeftAlone(acts, u, k + 1, i)
  }

  /** Before step n the request has come from that flip as far as the DELETE. */
  ghost predicate AwaitsDelete(states: seq<Race>, acts: seq<RaceAction>, n: nat, r: RouteId, u: UserId, k: nat)
    requires |states| == |acts| + 1
  {
    && k < n <= |acts| && LosesReply(states[k], acts[k], r, u) && LeftAlone(acts, u, k + 1, n)
    && StandsIn(states[n], r, Deleting(u, true))
  }

  /** Before step n it has come as far as the rollback. */
  ghost predicate AwaitsRollback(states: seq<Race>, acts: seq<RaceAction>, n: nat, r: RouteId, u: UserId, k: nat, d: nat)
    requires |states| == |acts| + 1
  {
    && k < d < n <= |acts| && LosesReply(states[k], acts[k], r, u) && FailsToDelete(states[d], acts[d], r, u)
    && LeftAlone(acts, u, k + 1, n)
    && StandsIn(states[n], r, Restoring(true))
  }

  // ---------- back from the standing admin to the failures ----------

  ghost predicate OthersPromoteNobody(states: seq<Race>, acts: seq<RaceAction>)
    requires |states| == |acts| + 1
  {
    Admins(states[0]) == {} && forall m :: 0 <= m < |acts| ==> !OutsidePromotion(states[m], acts[m])
  }

  ghost predicate ClosedUpTo(states: seq<Race>, n: nat)
    requires n < |states|
  {
    forall m :: 0 <= m <= n ==> ClosedInv(states[m])
  }

  /** While a request holds the claim and does not move, no admin is made, and one that other
      code takes away is gone. */
  lemma WaitMakesNoAdmin(s: Race, a: RaceAction, r: RouteId, p: RoutePhase)
    requires RaceInv(s) && RouteHolds(p) && StandsIn(RaceApply(s, a), r, p) && !IsStepOf(a, r) && !OutsidePromotion(s, a)
    ensures StandsIn(s, r, p)
    ensures Admins(RaceApply(s, a)) <= Admins(s) && forall u :: TakesAway(a, u) ==> u !in Admins(RaceApply(s, a))
  {
    assert HoldsIn(s, ByRoute(r));
    if StepEnabled(s, a) { OtherStepAdmins(s, a); }
  }

  /** A request that comes to clean up after a hit has just lost its reply, and the user it flipped
      is the only admin. */
  lemma LostReplyStep(s: Race, a: RaceAction, r: RouteId, u: UserId)
    requires ClosedInv(s) && IsStepOf(a, r) && StandsIn(RaceApply(s, a), r, Deleting(u, true))
    ensures LosesReply(s, a, r, u) && Admins(RaceApply(s, a)) == {u}
  {
    assert HoldsIn(s, ByRoute(r));
    assert SoleOwner(s, ByRoute(r));
    RouteStepAdmins(s, a);
  }

  /** A request that comes to the rollback after a hit has tried to delete its user. */
  lemma DeleteStep(s: Race, a: RaceAction, r: RouteId) returns (u: UserId)
    requires IsStepOf(a, r) && StandsIn(RaceApply(s, a), r, Restoring(true))
    ensures StandsIn(s, r, Deleting(u, true))
    ensures Admins(RaceApply(s, a)) != {} ==> Admins(s) != {}
    ensures Admins(RaceApply(s, a)) != {} && Admins(s) == {u} ==> FailsToDelete(s, a, r, u) && Admins(RaceApply(s, a)) == {u}
  {
    u := s.routes[r].user;
    RouteStepAdmins(s, a);
  }

  lemma AwaitsDeleteStill(states: seq<Race>, acts: seq<RaceAction>, n: nat, r: RouteId, u: UserId, k: nat)
    requires |states| == |acts| + 1 && n < |acts| && AwaitsDelete(states, acts, n, r, u, k)
    requires StandsIn(states[n + 1], r, Deleting(u, true)) && !TakesAway(acts[n], u)
    ensures AwaitsDelete(states, acts, n + 1, r, u, k)
  {
  }

  lemma {:induction false} WhileDeleting(states: seq<Race>, acts: seq<RaceAction>, n: nat, r: RouteId, u: UserId) returns (k: nat)
    requires IsRun(states, acts) && OthersPromoteNobody(states, acts) && n <= |acts| && ClosedUpTo(states, n)
    requires StandsIn(states[n], r, Deleting(u, true)) && Admins(states[n]) != {}
    ensures AwaitsDelete(states, acts, n, r, u, k) && Admins(states[n]) == {u}
    decreases n
  {
    assert n > 0;
    var before := n - 1;
    assert states[before + 1] == RaceApply(states[before], acts[before]);
    if IsStepOf(acts[before], r) {
      k := before;
      LostReplyStep(states[before], acts[before], r, u);
    } else {
      WaitMakesNoAdmin(states[before], acts[before], r, Deleting(u, true));
      k := WhileDeleting(states, acts, before, r, u);
      AwaitsDeleteStill(states, acts, before, r, u, k);
    }
  }

  lemma StopsDeleting(states: seq<Race>, acts: seq<RaceAction>, d: nat, r: RouteId) returns (u: UserId, k: nat)
    requires IsRun(states, acts) && OthersPromoteNobody(states, acts) && d < |acts| && ClosedUpTo(states, d)
    requires IsStepOf(acts[d], r) && StandsIn(states[d + 1], r, Restoring(true)) && Admins(states[d + 1]) != {}
    ensures AwaitsRollback(states, acts, d + 1, r, u, k, d) && Admins(states[d + 1]) == {u}
  {
    u := DeleteStep(states[d], acts[d], r);
    k := WhileDeleting(states, acts, d, r, u);
  }

  lemma AwaitsRollbackStill(states: seq<Race>, acts: seq<RaceAction>, n: nat, r: RouteId, u: UserId, k: nat, d: nat)
    requires |states| == |acts| + 1 && n < |acts| && AwaitsRollback(states, acts, n, r, u, k, d)
    requires StandsIn(states[n + 1], r, Restoring(true)) && !TakesAway(acts[n], u)
    ensures AwaitsRollback(states, acts, n + 1, r, u, k, d)
  {
  }

  lemma {:induction false} WhileRestoring(states: seq<Race>, acts: seq<RaceAction>, n: nat, r: RouteId)
      returns (u: UserId, k: nat, d: nat)
    requires IsRun(states, acts) && OthersPromoteNobody(states, acts) && n <= |acts| && ClosedUpTo(states, n)
    requires StandsIn(states[n], r, Restoring(true)) && Admins(states[n]) != {}
    ensures AwaitsRollback(states, acts, n, r, u, k, d) && Admins(states[n]) == {u}
    decreases n
  {
    assert n > 0;
    var before := n - 1;
    if IsStepOf(acts[before], r) {
      d := before;
      u, k := StopsDeleting(states, acts, before, r);
    } else {
      assert states[before + 1] == RaceApply(states[before], acts[before]);
      WaitMakesNoAdmin(states[before], acts[before], r, Restoring(true));
      u, k, d := WhileRestoring(states, acts, before, r);
      AwaitsRollbackStill(states, acts, before, r, u, k, d);
    }
  }

  lemma OpensByStray(s: Race, a: RaceAction)
    requires ClosedInv(s) && !OutsidePromotion(s, a) && !ClosedInv(RaceApply(s, a))
    ensures StrayStep(s, a)
  {
    if !StrayStep(s, a) { StepKeepsClosed(s, a); }
  }

  lemma StartIsClosed(s: Race)
    requires RaceInv(s) && Admins(s) == {}
    ensures ClosedInv(s)
  {
  }

  /** A run that does not keep the admins closed in has left one behind. */
  lemma {:induction false} FirstLeaving(states: seq<Race>, acts: seq<RaceAction>, n: nat)
      returns (r: RouteId, u: UserId, k: nat, d: nat, i: nat)
    requires IsRun(states, acts) && OthersPromoteNobody(states, acts) && RaceInv(states[0])
    requires n <= |acts| && !ClosedInv(states[n])
    ensures LeavesAdmin(states, acts, r, u, k, d, i)
    decreases n
  {
    StartIsClosed(states[0]);
    assert n > 0;
    i := n - 1;
    if m: nat :| m <= i && !ClosedInv(states[m]) {
      r, u, k, d, i := FirstLeaving(states, acts, m);
    } else {
      assert states[i + 1] == RaceApply(states[i], acts[i]);
      OpensByStray(states[i], acts[i]);
      r := acts[i].r;
      u, k, d := WhileRestoring(states, acts, i, r);
    }
  }

  /** Where the schedule leaves no admin behind, at most one user is admin at any time, and none
      while the setup is open. */
  lemma AtMostOneAdmin(users: map<UserId, User>, acts: seq<RaceAction>, n: nat)
    requires n <= |acts| && OthersPromoteNobody(Trace(users, acts), acts)
    requires forall r: RouteId, u: UserId, k: nat, d: nat, i: nat :: !LeavesAdmin(Trace(users, acts), acts, r, u, k, d, i)
    ensures var s := Trace(users, acts)[n];
            |Admins(s)| <= 1 && (s.base.status.Pending? ==> Admins(s) == {})
  {
    TraceIsRun(users, acts);
    if !ClosedInv(Trace(users, acts)[n]) {
      var r, u, k, d, i := FirstLeaving(Trace(users, acts), acts, n);
    }
  }

  // ---------- forward from the failures to the standing admin ----------

  /** How far a request has come; each of its steps but the last takes it further. */
  function Rank(p: RoutePhase): nat {
    match p
    case Claiming => 0
    case SigningUp => 1
    case Flipping(_) => 2
    case Deleting(_, _) => 3
    case Auditing(_, _) => 3
    case Restoring(_) => 4
    case _ => 5
  }

  lemma RankStep(s: Race, a: RaceAction, r: RouteId)
    requires r in s.routes
    ensures r in RaceApply(s, a).routes
    ensures if IsStepOf(a, r) && Rank(s.routes[r]) < 5 then Rank(s.routes[r]) < Rank(RaceApply(s, a).routes[r])
            else RaceApply(s, a).routes[r] == s.routes[r]
  {
  }

  lemma {:induction false} RankGrows(states: seq<Race>, acts: seq<RaceAction>, m: nat, n: nat, r: RouteId)
    requires IsRun(states, acts) && m < n <= |acts| && IsStepOf(acts[m], r)
    requires r in states[m].routes && Rank(states[m].routes[r]) < 5
    ensures r in states[n].routes && Rank(states[m].routes[r]) < Rank(states[n].routes[r])
    decreases n
  {
    assert states[n - 1 + 1] == RaceApply(states[n - 1], acts[n - 1]);
    if m < n - 1 { RankGrows(states, acts, m, n - 1, r); }
    RankStep(states[n - 1], acts[n - 1], r);
  }

  /** Between a step of the request and the next one, it stands where it will be found. */
  lemma StoodThere(states: seq<Race>, acts: seq<RaceAction>, m: nat, n: nat, r: RouteId, p: RoutePhase)
    requires IsRun(states, acts) && m < n < |acts| && IsStepOf(acts[m], r) && r in states[m].routes
    requires StandsIn(states[n + 1], r, p) && Rank(p) == Rank(states[m].routes[r]) + 1 < 5
    ensures StandsIn(states[n], r, p) && !IsStepOf(acts[n], r)
  {
    assert states[n + 1] == RaceApply(states[n], acts[n]);
    RankGrows(states, acts, m, n, r);
    RankStep(states[n], acts[n], r);
  }

  lemma WaitKeepsAdmin(s: Race, a: RaceAction, r: RouteId, u: UserId)
    requires RaceInv(s) && r in s.routes && RouteHolds(s.routes[r]) && !IsStepOf(a, r)
    requires u in Admins(s) && !TakesAway(a, u)
    ensures u in Admins(RaceApply(s, a))
  {
    assert HoldsIn(s, ByRoute(r));
    if StepEnabled(s, a) { OtherStepAdmins(s, a); }
  }

  lemma {:induction false} AdminWhileDeleting(states: seq<Race>, acts: seq<RaceAction>, n: nat, r: RouteId, u: UserId, k: nat)
    requires IsRun(states, acts) && KeepsToken(states) && AwaitsDelete(states, acts, n, r, u, k)
    ensures u in Admins(states[n])
    decreases n
  {
    var before := n - 1;
    assert states[before + 1] == RaceApply(states[before], acts[before]);
    if k == before {
      RouteStepAdmins(states[before], acts[before]);
    } else {
      StoodThere(states, acts, k, before, r, Deleting(u, true));
      AdminWhileDeleting(states, acts, before, r, u, k);
      WaitKeepsAdmin(states[before], acts[before], r, u);
    }
  }

  lemma {:induction false} AdminWhileRestoring(states: seq<Race>, acts: seq<RaceAction>, n: nat, r: RouteId, u: UserId, k: nat, d: nat)
    requires IsRun(states, acts) && KeepsToken(states) && AwaitsRollback(states, acts, n, r, u, k, d)
    ensures u in Admins(states[n])
    decreases n
  {
    var before := n - 1;
    assert states[before + 1] == RaceApply(states[before], acts[before]);
    if d == before {
      AdminWhileDeleting(states, acts, before, r, u, k);
      RouteStepAdmins(states[before], acts[before]);
    } else {
      StoodThere(states, acts, d, before, r, Restoring(true));
      AdminWhileRestoring(states, acts, before, r, u, k, d);
      WaitKeepsAdmin(states[before], acts[before], r, u);
    }
  }

  /** The setup is open although there is an admin. */
  predicate OpenWithAdmin(s: Race) { s.base.status.Pending? && Admins(s) != {} }

  lemma LeavingOpens(states: seq<Race>, acts: seq<RaceAction>, r: RouteId, u: UserId, k: nat, d: nat, i: nat)
    requires IsRun(states, acts) && KeepsToken(states) && LeavesAdmin(states, acts, r, u, k, d, i)
    ensures OpenWithAdmin(states[i + 1]) && u in Admins(states[i + 1])
  {
    AdminWhileRestoring(states, acts, i, r, u, k, d);
    assert states[i + 1] == RaceApply(states[i], acts[i]);
    RouteStepAdmins(states[i], acts[i]);
  }

  /** The setup is ever open with an admin standing exactly if the schedule leaves one behind. */
  lemma OpenWithAdminIff(users: map<UserId, User>, acts: seq<RaceAction>)
    requires OthersPromoteNobody(Trace(users, acts), acts)
    ensures var states := Trace(users, acts);
            (exists n: nat :: n < |states| && OpenWithAdmin(states[n])) <==>
            (exists r: RouteId, u: UserId, k: nat, d: nat, i: nat :: LeavesAdmin(states, acts, r, u, k, d, i))
  {
    var states := Trace(users, acts);
    TraceIsRun(users, acts);
    if n: nat :| n < |states| && OpenWithAdmin(states[n]) {
      var r, u, k, d, i := FirstLeaving(states, acts, n);
    }
    if r: RouteId, u: UserId, k: nat, d: nat, i: nat :| LeavesAdmin(states, acts, r, u, k, d, i) {
      LeavingOpens(states, acts, r, u, k, d, i);
    }
  }

  /** And then the next verified user whose hook is left alone becomes an admin beside the others. */
  lemma OpenGateAdmitsAnother(s: Race, h: HookId, u: UserId, now: nat)
    requires s.base.status.Pending? && h !in s.base.hooks && FlipHits(s.base, u)
    ensures var t := RaceApply(RaceApply(RaceApply(s, OfHook(Begin(h, u, None))),
                                         OfHook(Advance(h, now, ""))), OfHook(Advance(h, now, "")));
            Admins(t) == Admins(s) + {u}
  {
    var s1 := RaceApply(s, OfHook(Begin(h, u, None)));
    var s2 := RaceApply(s1, OfHook(Advance(h, now, "")));
    assert s2.base.users == s.base.users && s2.base.hooks[h] == Hook(u, None, AtFlip);
    assert Admins(s2) == Admins(s);
    HookStepAdmins(s2, OfHook(Advance(h, now, "")));
  }

  // ---------- two runs ----------

  const REPLY := OfRoute(0, Replied, 1, None)
  const SIGN_UP := OfRoute(0, Replied, 1, Some(8))
  const LOSE_REPLY := OfRoute(0, Threw(true), 1, None)
  const FAIL := OfRoute(0, Threw(false), 1, None)
  const BEGIN_HOOK := OfHook(Begin(0, 7, None))
  const ADVANCE := OfHook(Advance(0, 2, ""))
  const USER_GONE := OfHook(TouchUser(8, None))

  lemma OneMore(s: Race, acts: seq<RaceAction>, a: RaceAction)
    ensures RaceExec(s, acts + [a]) == RaceApply(RaceExec(s, acts), a)
  {
    assert (acts + [a])[..|acts|] == acts;
  }

  lemma OneAtATime(acts: seq<RaceAction>, a1: RaceAction, a2: RaceAction, a3: RaceAction)
    ensures acts + [a1, a2, a3] == acts + [a1] + [a2] + [a3]
  {
  }

  lemma ThreeMore(s: Race, acts: seq<RaceAction>, a1: RaceAction, a2: RaceAction, a3: RaceAction,
                  s0: Race, s1: Race, s2: Race, s3: Race)
    requires RaceExec(s, acts) == s0 && RaceApply(s0, a1) == s1 && RaceApply(s1, a2) == s2 && RaceApply(s2, a3) == s3
    ensures RaceExec(s, acts + [a1, a2, a3]) == s3
  {
    OneAtATime(acts, a1, a2, a3);
    OneMore(s, acts, a1);
    OneMore(s, acts + [a1], a2);
    OneMore(s, acts + [a1] + [a2], a3);
  }

  /** A request has claimed and signed its user up. */
  function SignedUp(users: map<UserId, User>): Race {
    Race(State(Completed, Some(1), users[8 := User(false, false)], map[], []), map[0 := Flipping(8)], [])
  }

  lemma SigningUpRuns(users: map<UserId, User>)
    requires 8 !in users
    ensures RaceExec(Start(users), [] + [BeginRoute(0), REPLY, SIGN_UP]) == SignedUp(users)
  {
    var s0 := Start(users);
    var s1 := s0.(routes := map[0 := Claiming]);
    var s2 := Race(State(Completed, Some(1), users, map[], []), map[0 := SigningUp], []);
    ThreeMore(s0, [], BeginRoute(0), REPLY, SIGN_UP, s0, s1, s2, SignedUp(users));
  }

  /** The request's flip is committed, the reply and the clean-up are lost, the claim goes back. */
  function Reopened(users: map<UserId, User>): Race {
    Race(State(Pending, None, users[8 := User(false, true)], map[], []), map[0 := GaveBack(true)], [8])
  }

  lemma ReopeningRuns(s: Race, acts: seq<RaceAction>, users: map<UserId, User>)
    requires RaceExec(s, acts) == SignedUp(users)
    ensures RaceExec(s, acts + [LOSE_REPLY, FAIL, REPLY]) == Reopened(users)
  {
    var b := State(Completed, Some(1), users[8 := User(false, true)], map[], []);
    var s1, s2 := Race(b, map[0 := Deleting(8, true)], [8]), Race(b, map[0 := Restoring(true)], [8]);
    assert users[8 := User(false, false)][8 := User(false, true)] == users[8 := User(false, true)];
    ThreeMore(s, acts, LOSE_REPLY, FAIL, REPLY, SignedUp(users), s1, s2, Reopened(users));
  }

  function HookAt(p: Phase): map<HookId, Hook> { map[0 := Hook(7, None, p)] }

  lemma HookWins(s: Race, acts: seq<RaceAction>, users: map<UserId, User>, routes: map<RouteId, RoutePhase>, promoted: seq<UserId>)
    requires RaceExec(s, acts) == Race(State(Pending, None, users, map[], []), routes, promoted)
    requires FlipHits(Init(users), 7)
    ensures RaceExec(s, acts + [BEGIN_HOOK, ADVANCE, ADVANCE]) ==
      Race(State(Completed, Some(2), users[7 := users[7].(admin := true)], HookAt(AtAudit), [RoleFlip(0, 7)]), routes, promoted)
  {
    var s1 := Race(State(Pending, None, users, HookAt(AtClaim), []), routes, promoted);
    var s2 := Race(State(Completed, Some(2), users, HookAt(AtFlip), []), routes, promoted);
    var b := State(Completed, Some(2), users[7 := users[7].(admin := true)], HookAt(AtAudit), [RoleFlip(0, 7)]);
    ThreeMore(s, acts, BEGIN_HOOK, ADVANCE, ADVANCE, RaceExec(s, acts), s1, s2, Race(b, routes, promoted));
  }

  /** So two admins can stand: after a lost reply and a failed clean-up the next hook's flip
      leaves them, although no other code wrote a row. */
  lemma TwoAdmins()
    ensures
      var s := RaceExec(Start(map[7 := User(true, false)]), [] + [BeginRoute(0), REPLY, SIGN_UP]
                        + [LOSE_REPLY, FAIL, REPLY] + [BEGIN_HOOK, ADVANCE, ADVANCE]);
      Admins(s) == {7, 8} && AllFlips(s) == 2
  {
    var users := map[7 := User(true, false)];
    var s0, signed := Start(users), [] + [BeginRoute(0), REPLY, SIGN_UP];
    SigningUpRuns(users);
    ReopeningRuns(s0, signed, users);
    HookWins(s0, signed + [LOSE_REPLY, FAIL, REPLY], users[8 := User(false, true)], map[0 := GaveBack(true)], [8]);
    BothStand(RaceExec(s0, signed + [LOSE_REPLY, FAIL, REPLY] + [BEGIN_HOOK, ADVANCE, ADVANCE]));
  }

  lemma BothStand(s: Race)
    requires s.base.users == map[7 := User(true, false)][8 := User(false, true)][7 := User(true, true)]
    requires s.base.log == [RoleFlip(0, 7)] && |s.promoted| == 1
    ensures Admins(s) == {7, 8} && AllFlips(s) == 2
  {
    FlipsSnoc([], RoleFlip(0, 7));
    assert [] + [RoleFlip(0, 7)] == [RoleFlip(0, 7)];
  }

  /** It takes no failure to end without an admin: a request whose new user is deleted before the
      flip is answered as a success and leaves the setup completed. */
  lemma SuccessWithoutAdmin()
    ensures
      var s := RaceExec(Start(map[]), [] + [BeginRoute(0), REPLY, SIGN_UP] + [USER_GONE, REPLY, REPLY]);
      s.base.status.Completed? && s.routes == map[0 := Kept(false, Some(8))] && s.base.users == map[] && AllFlips(s) == 0
  {
    var s0, signed := Start(map[]), [] + [BeginRoute(0), REPLY, SIGN_UP];
    var b := State(Completed, Some(1), map[], map[], []);
    var s1, s2 := Race(b, map[0 := Flipping(8)], []), Race(b, map[0 := Auditing(8, false)], []);
    SigningUpRuns(map[]);
    assert map[8 := User(false, false)] - {8} == map[];
    ThreeMore(s0, signed, USER_GONE, REPLY, REPLY, SignedUp(map[]), s1, s2, Race(b, map[0 := Kept(false, Some(8))], []));
  }
}
