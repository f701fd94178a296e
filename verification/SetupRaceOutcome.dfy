/** What every run of hooks and bearer-token requests keeps, and exactly when the requests break
    what the hooks alone guarantee. */
module SetupRaceOutcome {
  import opened JsText
  import opened SetupClaim
  import opened SetupRace
  import SetupOutcome

  /** Token conservation with both kinds of contender: one holder while completed, none while
      pending, and every flip is the holder's or that of a request that gave the claim back. */
  lemma RaceTokenConserved(users: map<UserId, User>, acts: seq<RaceAction>)
    ensures
      var s := RaceExec(Start(users), acts);
      && (forall o, p :: HoldsIn(s, o) && HoldsIn(s, p) ==> o == p)
      && (s.base.status.Completed? <==> exists o :: HoldsIn(s, o))
      && (s.base.completedAt.Some? <==> s.base.status.Completed?)
      && AllFlips(s) == |Reopeners(s)| + One(exists o :: HoldsIn(s, o) && FlippedIn(s, o))
  {
    RaceKeepsInv(users, acts);
    var s := RaceExec(Start(users), acts);
    if s.base.status.Completed? {
      var o :| SoleOwner(s, o) && AllFlips(s) == |Reopeners(s)| + One(FlippedIn(s, o));
      assert HoldsIn(s, o);
    }
  }

  /** Without requests the race is the claim of the hooks alone. */
  lemma {:induction false} HooksAloneRaceAsBefore(users: map<UserId, User>, acts: seq<Action>, lifted: seq<RaceAction>)
    requires |lifted| == |acts| && forall k :: 0 <= k < |acts| ==> lifted[k] == OfHook(acts[k])
    ensures RaceExec(Start(users), lifted) == Race(Exec(Init(users), acts), map[], [])
    decreases |acts|
  {
    var n := |acts| - 1;
    if acts != [] {
      HooksAloneRaceAsBefore(users, acts[..n], lifted[..n]);
    }
  }

  // ---------- when a second role flip happens ----------

  predicate FlipStep(s: Race, a: RaceAction) {
    match a
    case OfHook(act) => HookStep(s.base, act) && HookFlips(s.base, act)
    case BeginRoute(_) => false
    case OfRoute(r, how, _, _) =>
      r in s.routes && s.routes[r].Flipping? && Commits(how) && s.routes[r].user in s.base.users
  }

  /** A request whose flip was committed gives the claim back. */
  predicate ReopenStep(s: Race, a: RaceAction) {
    a.OfRoute? && a.r in s.routes && s.routes[a.r] == Restoring(true) && Commits(a.how)
  }

  ghost predicate FlipsAt(users: map<UserId, User>, acts: seq<RaceAction>, j: nat) {
    j < |acts| && FlipStep(RaceExec(Start(users), acts[..j]), acts[j])
  }

  ghost predicate ReopensAt(users: map<UserId, User>, acts: seq<RaceAction>, i: nat) {
    i < |acts| && ReopenStep(RaceExec(Start(users), acts[..i]), acts[i])
  }

  lemma StepCounts(s: Race, a: RaceAction)
    ensures AllFlips(RaceApply(s, a)) == AllFlips(s) + One(FlipStep(s, a))
    ensures |Reopeners(RaceApply(s, a))| == |Reopeners(s)| + One(ReopenStep(s, a))
  {
    var t := RaceApply(s, a);
    if a.OfHook? {
      assert Reopeners(t) == Reopeners(s);
      if HookStep(s.base, a.a) { HookLog(s.base, a.a); }
    } else if a.OfRoute? && a.r in s.routes && s.routes[a.r] != GaveBack(true) {
      ReopenersOfStep(s, a.r, t.routes[a.r]);
      assert Reopeners(t) == Reopeners(s.(routes := t.routes));
    } else {
      assert Reopeners(t) == Reopeners(s);
    }
  }

  /** Who flips is the sole holder and has not flipped before. */
  lemma FlipIsTheHolders(s: Race, a: RaceAction)
    requires RaceInv(s) && FlipStep(s, a)
    ensures AllFlips(s) == |Reopeners(s)|
  {
    var x := Actor(s, a);
    assert HoldsIn(s, x) && !FlippedIn(s, x);
    var o :| SoleOwner(s, o) && AllFlips(s) == |Reopeners(s)| + One(FlippedIn(s, o));
  }

  lemma NothingReopenedYet(users: map<UserId, User>)
    ensures Reopeners(Start(users)) == {}
  {
  }

  lemma {:induction false} FirstReopening(users: map<UserId, User>, acts: seq<RaceAction>) returns (i: nat)
    requires Reopeners(RaceExec(Start(users), acts)) != {}
    ensures ReopensAt(users, acts, i)
    decreases |acts|
  {
    NothingReopenedYet(users);
    assert acts != [];
    var n := |acts| - 1;
    var before := RaceExec(Start(users), acts[..n]);
    StepCounts(before, acts[n]);
    if Reopeners(before) != {} {
      i := FirstReopening(users, acts[..n]);
      assert acts[..n][..i] == acts[..i];
    } else {
      i := n;
    }
  }

  lemma {:induction false} SecondFlip(users: map<UserId, User>, acts: seq<RaceAction>) returns (i: nat, j: nat)
    requires AllFlips(RaceExec(Start(users), acts)) >= 2
    ensures i < j && ReopensAt(users, acts, i) && FlipsAt(users, acts, j)
    decreases |acts|
  {
    var n := |acts| - 1;
    var before := RaceExec(Start(users), acts[..n]);
    StepCounts(before, acts[n]);
    if AllFlips(before) >= 2 {
      i, j := SecondFlip(users, acts[..n]);
      assert acts[..n][..i] == acts[..i] && acts[..n][..j] == acts[..j];
    } else {
      RaceKeepsInv(users, acts[..n]);
      FlipIsTheHolders(before, acts[n]);
      i := FirstReopening(users, acts[..n]);
      j := n;
      assert acts[..n][..i] == acts[..i];
    }
  }

  lemma {:induction false} CountsGrow(users: map<UserId, User>, acts: seq<RaceAction>, k: nat)
    requires k <= |acts|
    ensures AllFlips(RaceExec(Start(users), acts[..k])) <= AllFlips(RaceExec(Start(users), acts))
    ensures |Reopeners(RaceExec(Start(users), acts[..k]))| <= |Reopeners(RaceExec(Start(users), acts))|
    decreases |acts|
  {
    var n := |acts| - 1;
    if k == |acts| {
      assert acts[..k] == acts;
    } else {
      assert acts[..n][..k] == acts[..k];
      CountsGrow(users, acts[..n], k);
      StepCounts(RaceExec(Start(users), acts[..n]), acts[n]);
    }
  }

  lemma AfterStep(users: map<UserId, User>, acts: seq<RaceAction>, i: nat)
    requires i < |acts|
    ensures RaceExec(Start(users), acts[..i + 1]) == RaceApply(RaceExec(Start(users), acts[..i]), acts[i])
  {
    assert acts[..i + 1][..i] == acts[..i];
  }

  lemma StaysReopened(users: map<UserId, User>, acts: seq<RaceAction>, i: nat)
    requires ReopensAt(users, acts, i)
    ensures |Reopeners(RaceExec(Start(users), acts))| >= 1
  {
    AfterStep(users, acts, i);
    StepCounts(RaceExec(Start(users), acts[..i]), acts[i]);
    CountsGrow(users, acts, i + 1);
  }

  lemma FlipAgain(s: Race, a: RaceAction)
    requires RaceInv(s) && FlipStep(s, a) && |Reopeners(s)| >= 1
    ensures AllFlips(RaceApply(s, a)) >= 2
  {
    FlipIsTheHolders(s, a);
    StepCounts(s, a);
  }

  lemma ReopensInPrefix(users: map<UserId, User>, acts: seq<RaceAction>, i: nat, head: seq<RaceAction>)
    requires ReopensAt(users, acts, i) && i < |head| <= |acts| && head == acts[..|head|]
    ensures ReopensAt(users, head, i)
  {
    assert head[..i] == acts[..i] && head[i] == acts[i];
  }

  lemma FlipsStay(users: map<UserId, User>, acts: seq<RaceAction>, j: nat, n: nat)
    requires j < |acts| && AllFlips(RaceApply(RaceExec(Start(users), acts[..j]), acts[j])) >= n
    ensures AllFlips(RaceExec(Start(users), acts)) >= n
  {
    AfterStep(users, acts, j);
    CountsGrow(users, acts, j + 1);
  }

  lemma FlipAfterReopening(users: map<UserId, User>, acts: seq<RaceAction>, i: nat, j: nat)
    requires i < j && ReopensAt(users, acts, i) && FlipsAt(users, acts, j)
    ensures AllFlips(RaceExec(Start(users), acts)) >= 2
  {
    var head := acts[..j];
    ReopensInPrefix(users, acts, i, head);
    StaysReopened(users, head, i);
    RaceKeepsInv(users, head);
    FlipAgain(RaceExec(Start(users), head), acts[j]);
    FlipsStay(users, acts, j, 2);
  }

  /** More than one role flip ever happens exactly if a request gives the claim back after its
      own flip was committed and a later flip hits. */
  lemma SecondFlipIff(users: map<UserId, User>, acts: seq<RaceAction>)
    ensures AllFlips(RaceExec(Start(users), acts)) >= 2
        <==> exists i: nat, j: nat :: i < j && ReopensAt(users, acts, i) && FlipsAt(users, acts, j)
  {
    if AllFlips(RaceExec(Start(users), acts)) >= 2 {
      var i, j := SecondFlip(users, acts);
    }
    if i: nat, j: nat :| i < j && ReopensAt(users, acts, i) && FlipsAt(users, acts, j) {
      FlipAfterReopening(users, acts, i, j);
    }
  }

  /** A flip that was committed although the request saw an exception. */
  ghost predicate ReplyLostAt(users: map<UserId, User>, acts: seq<RaceAction>, r: RouteId, k: nat) {
    && k < |acts| && acts[k].OfRoute? && acts[k].r == r && acts[k].how == Threw(true)
    && FlipStep(RaceExec(Start(users), acts[..k]), acts[k])
  }

  predicate CleansUpAfterHit(s: Race, r: RouteId) {
    r in s.routes && (s.routes[r] == Restoring(true) || (s.routes[r].Deleting? && s.routes[r].hit))
  }

  /** Such a request gives the claim back only because its flip was taken to have failed. */
  lemma {:induction false} ReopeningLostAReply(users: map<UserId, User>, acts: seq<RaceAction>, r: RouteId) returns (k: nat)
    requires CleansUpAfterHit(RaceExec(Start(users), acts), r)
    ensures ReplyLostAt(users, acts, r, k)
    decreases |acts|
  {
    var n := |acts| - 1;
    var before := RaceExec(Start(users), acts[..n]);
    if CleansUpAfterHit(before, r) {
      k := ReopeningLostAReply(users, acts[..n], r);
      assert acts[..n][..k] == acts[..k];
    } else {
      k := n;
    }
  }

  /** So no run flips a second role without having lost the reply to a request's flip. */
  lemma SecondFlipLostAReply(users: map<UserId, User>, acts: seq<RaceAction>) returns (r: RouteId, k: nat)
    requires AllFlips(RaceExec(Start(users), acts)) >= 2
    ensures ReplyLostAt(users, acts, r, k)
  {
    var i, j := SecondFlip(users, acts);
    r := acts[i].r;
    k := ReopeningLostAReply(users, acts[..i], r);
    assert acts[..i][..k] == acts[..k];
  }

  // ---------- when the setup is completed without an admin of its own ----------

  predicate RaceFinished(s: Race) {
    && (forall h :: h in s.base.hooks ==> Finished(s.base.hooks[h].phase))
    && (forall r :: r in s.routes ==> RouteFinished(s.routes[r]))
  }

  /** The holder can no longer flip and will not give the claim back. */
  predicate StrandedBy(s: Race, o: Owner) {
    match o
    case ByHook(h) => h in s.base.hooks && s.base.hooks[h].phase.DeadClaimed?
    case ByRoute(r) => r in s.routes && (s.routes[r].Auditing? || s.routes[r].Kept?) && !s.routes[r].hit
  }

  /** The step that strands: a throw or a death at which nobody is left to roll back, or a
      request's flip that hits no row, which the request takes for a success. */
  predicate Strands(s: Race, a: RaceAction) {
    match a
    case OfHook(act) => SetupOutcome.KillsHolder(s.base, act)
    case BeginRoute(_) => false
    case OfRoute(r, how, _, _) =>
      && r in s.routes
      && match s.routes[r]
         case Claiming => !how.Replied? && how.committed && s.base.status.Pending?
         case SigningUp => !how.Replied?
         case Flipping(u) => !how.Threw? && !(Commits(how) && u in s.base.users)
         case Deleting(_, hit) => !hit && how.Died?
         case Restoring(hit) => !hit && !Commits(how)
         case _ => false
  }

  ghost predicate StrandsAt(users: map<UserId, User>, acts: seq<RaceAction>, i: nat) {
    i < |acts| && Strands(RaceExec(Start(users), acts[..i]), acts[i])
  }

  lemma StrandedStep(s: Race, a: RaceAction, o: Owner)
    ensures StrandedBy(RaceApply(s, a), o)
        <==> StrandedBy(s, o) || (Strands(s, a) && o == Actor(s, a))
  {
  }

  lemma {:induction false} WasStranded(users: map<UserId, User>, acts: seq<RaceAction>, o: Owner) returns (i: nat)
    requires StrandedBy(RaceExec(Start(users), acts), o)
    ensures StrandsAt(users, acts, i)
    decreases |acts|
  {
    var n := |acts| - 1;
    var before := RaceExec(Start(users), acts[..n]);
    StrandedStep(before, acts[n], o);
    if StrandedBy(before, o) {
      i := WasStranded(users, acts[..n], o);
      assert acts[..n][..i] == acts[..i];
    } else {
      i := n;
    }
  }

  lemma {:induction false} StaysStranded(users: map<UserId, User>, acts: seq<RaceAction>, i: nat) returns (o: Owner)
    requires StrandsAt(users, acts, i)
    ensures StrandedBy(RaceExec(Start(users), acts), o)
    decreases |acts|
  {
    var n := |acts| - 1;
    var before := RaceExec(Start(users), acts[..n]);
    if i == n {
      o := Actor(before, acts[n]);
    } else {
      assert acts[..n][..i] == acts[..i];
      o := StaysStranded(users, acts[..n], i);
    }
    StrandedStep(before, acts[n], o);
  }

  /** When every hook and request is over, the setup is completed with no flip of the present
      holder exactly if some step stranded it. */
  lemma StrandedExactlyByStep(users: map<UserId, User>, acts: seq<RaceAction>)
    requires RaceFinished(RaceExec(Start(users), acts))
    ensures
      var s := RaceExec(Start(users), acts);
      (s.base.status.Completed? && AllFlips(s) == |Reopeners(s)|) <==> exists i: nat :: StrandsAt(users, acts, i)
  {
    var s := RaceExec(Start(users), acts);
    RaceKeepsInv(users, acts);
    if s.base.status.Completed? && AllFlips(s) == |Reopeners(s)| {
      var o :| SoleOwner(s, o) && AllFlips(s) == |Reopeners(s)| + One(FlippedIn(s, o));
      var i := WasStranded(users, acts, o);
    }
    if i: nat :| StrandsAt(users, acts, i) {
      var o := StaysStranded(users, acts, i);
      assert HoldsIn(s, o) && !FlippedIn(s, o);
    }
  }

  // ---------- what a request writes ----------

  /** The rows of the users after a request's step: the sign-up adds an unverified user without the
      role, the flip gives the role and leaves the verification, the clean-up deletes. */
  function RowsAfter(s: Race, p: RoutePhase, created: Option<UserId>): map<UserId, User> {
    var users := s.base.users;
    if p.SigningUp? && created.Some? && created.value !in users then users[created.value := User(false, false)]
    else if p.Flipping? && p.user in users then users[p.user := User(users[p.user].verified, true)]
    else if p.Deleting? then users - {p.user}
    else users
  }

  /** A request's step writes its own row and the claim, nothing of the hooks and no log entry. */
  lemma RequestWrites(s: Race, r: RouteId, how: Ending, now: nat, created: Option<UserId>)
    requires r in s.routes
    ensures var t, p := RaceApply(s, OfRoute(r, how, now, created)), s.routes[r];
      && t.base.hooks == s.base.hooks && t.base.log == s.base.log
      && t.base.users == (if Commits(how) then RowsAfter(s, p, created) else s.base.users)
      && t.base.completedAt ==
           (if Commits(how) && p.Claiming? && s.base.status.Pending? then Some(now)
            else if Commits(how) && p.Restoring? then None else s.base.completedAt)
      && t.promoted == s.promoted + (if Commits(how) && p.Flipping? && p.user in s.base.users then [p.user] else [])
      && (forall q :: q != r ==> (q in t.routes <==> q in s.routes) && (q in s.routes ==> t.routes[q] == s.routes[q]))
  {
  }

  // ---------- a request that nothing disturbs ----------

  function After(s: Race, r: RouteId, how: Ending, now: nat, created: Option<UserId>): Race {
    RaceApply(s, OfRoute(r, how, now, created))
  }

  /** The request is there, has claimed, and has signed u up. */
  function Claimed(s: Race, r: RouteId, now: nat): Race {
    After(RaceApply(s, BeginRoute(r)), r, Replied, now, None)
  }

  function MadeUser(s: Race, r: RouteId, u: UserId, now: nat): Race {
    After(Claimed(s, r, now), r, Replied, now, Some(u))
  }

  lemma MadeUserIs(s: Race, r: RouteId, u: UserId, now: nat)
    requires s.base.status.Pending? && r !in s.routes && u !in s.base.users
    ensures MadeUser(s, r, u, now) ==
      Race(s.base.(status := Completed, completedAt := Some(now), users := s.base.users[u := User(false, false)]),
           s.routes[r := Flipping(u)], s.promoted)
  {
    assert Claimed(s, r, now) ==
           Race(s.base.(status := Completed, completedAt := Some(now)), s.routes[r := SigningUp], s.promoted) by {
      assert s.routes[r := Claiming][r := SigningUp] == s.routes[r := SigningUp];
    }
    assert s.routes[r := SigningUp][r := Flipping(u)] == s.routes[r := Flipping(u)];
  }

  /** On an open setup it completes the setup and makes its own user the admin, whose address stays
      unverified; nobody else's row changes. */
  lemma UndisturbedRequestPromotes(s: Race, r: RouteId, u: UserId, now: nat)
    requires s.base.status.Pending? && r !in s.routes && u !in s.base.users
    ensures After(After(MadeUser(s, r, u, now), r, Replied, now, None), r, Replied, now, None) ==
      Race(s.base.(status := Completed, completedAt := Some(now), users := s.base.users[u := User(false, true)]),
           s.routes[r := Kept(true, Some(u))], s.promoted + [u])
  {
    MadeUserIs(s, r, u, now);
    assert s.base.users[u := User(false, false)][u := User(false, true)] == s.base.users[u := User(false, true)];
    assert s.routes[r := Flipping(u)][r := Auditing(u, true)][r := Kept(true, Some(u))]
           == s.routes[r := Kept(true, Some(u))];
  }

  /** On a completed setup it changes nothing, and a sign-up that fails or a flip that throws
      without effect is undone: every row is as it was before the request came. */
  lemma FailedRequestIsUndone(s: Race, r: RouteId, u: UserId, now: nat)
    requires r !in s.routes && u !in s.base.users && (s.base.completedAt.Some? <==> s.base.status.Completed?)
    ensures s.base.status.Completed? ==> Claimed(s, r, now) == s.(routes := s.routes[r := Outside])
    ensures s.base.status.Pending? ==>
      && After(After(Claimed(s, r, now), r, Replied, now, None), r, Replied, now, None)
         == s.(routes := s.routes[r := GaveBack(false)])
      && After(After(After(MadeUser(s, r, u, now), r, Threw(false), now, None), r, Replied, now, None), r, Replied, now, None)
         == s.(routes := s.routes[r := GaveBack(false)])
  {
    var routes := s.routes[r := GaveBack(false)];
    if s.base.status.Completed? {
      assert s.routes[r := Claiming][r := Outside] == s.routes[r := Outside];
    } else {
      MadeUserIs(s, r, u, now);
      assert s.base.users[u := User(false, false)] - {u} == s.base.users;
      assert s.routes[r := Flipping(u)][r := Deleting(u, false)][r := Restoring(false)][r := GaveBack(false)] == routes;
      assert s.routes[r := Claiming][r := SigningUp][r := Restoring(false)][r := GaveBack(false)] == routes;
    }
  }
}
