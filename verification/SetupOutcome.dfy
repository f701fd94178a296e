/** What every run of the first-admin claim keeps, and how runs end. */
module SetupOutcome {
  import opened JsText
  import opened SetupClaim

  // ---------- what every run keeps ----------

  /** Token conservation, whatever throws or crashes: 'completed' means one holder and
      'pending' means none, and at most one role flip ever happens. */
  lemma TokenConserved(users: map<UserId, User>, acts: seq<Action>)
    ensures
      var s := Exec(Init(users), acts);
      && |Holders(s)| == (if s.status.Completed? then 1 else 0)
      && (s.completedAt.Some? <==> s.status.Completed?)
      && |Flips(s.log)| <= 1
      && (Flips(s.log) != [] ==> s.status.Completed?)
  {
    RunKeepsInv(Init(users), acts);
    var s := Exec(Init(users), acts);
    if s.status.Completed? {
      var h :| OwnedBy(s, h);
      OnlyHolder(s, h);
    }
  }

  /** No audit row without the flip it reports, earlier in the log. */
  lemma AuditAfterFlip(users: map<UserId, User>, acts: seq<Action>)
    ensures AuditsFollowFlips(Exec(Init(users), acts).log)
  {
    RunKeepsInv(Init(users), acts);
  }

  /** The rollback carries no WHERE on the status, yet it can only undo its own claim: when
      a hook is about to roll back, no flip has happened and nobody else holds anything. */
  lemma RollbackUndoesOnlyItsOwnClaim(users: map<UserId, User>, acts: seq<Action>, h: HookId)
    requires var s := Exec(Init(users), acts); h in s.hooks && s.hooks[h].phase.AtRollback?
    ensures var s := Exec(Init(users), acts);
            s.status.Completed? && Holders(s) == {h} && Flips(s.log) == []
  {
    RunKeepsInv(Init(users), acts);
    AboutToRollBack(Exec(Init(users), acts), h);
  }

  lemma AboutToRollBack(s: State, h: HookId)
    requires Inv(s) && h in s.hooks && s.hooks[h].phase.AtRollback?
    ensures s.status.Completed? && Holders(s) == {h} && Flips(s.log) == []
  {
    assert h in Holders(s);
    var o :| OwnedBy(s, o);
    OnlyHolder(s, o);
  }

  /** The users table as other code alone would leave it. */
  function OthersOnly(users: map<UserId, User>, acts: seq<Action>): map<UserId, User>
    decreases |acts|
  {
    if acts == [] then users else OthersStep(OthersOnly(users, acts[..|acts| - 1]), acts[|acts| - 1])
  }

  function OthersStep(users: map<UserId, User>, a: Action): map<UserId, User> {
    match a
    case TouchUser(u, row) => if row.Some? then users[u := row.value] else users - {u}
    case _ => users
  }

  /** No hook holds the claim that was absent from `before` or free there. */
  predicate NoNewHolder(before: map<HookId, Hook>, after: map<HookId, Hook>) {
    && before.Keys <= after.Keys
    && forall h :: h in after && (h !in before || !Holds(before[h].phase)) ==> !Holds(after[h].phase)
  }

  /** Once a role has been flipped the outcome is final: whatever hooks start, finish or
      crash later, setup stays completed, no second flip happens and no hook writes a user. */
  lemma {:induction false} SuccessIsFinal(s: State, acts: seq<Action>)
    requires Inv(s) && Flips(s.log) != []
    ensures
      var t := Exec(s, acts);
      && t.status.Completed? && t.completedAt == s.completedAt
      && Flips(t.log) == Flips(s.log)
      && t.users == OthersOnly(s.users, acts)
      && forall h :: h in t.hooks && (h !in s.hooks || s.hooks[h].phase.AtClaim?) ==> !Holds(t.hooks[h].phase)
    decreases |acts|
  {
    if acts == [] {
      var o :| OwnedBy(s, o);
    } else {
      var init, a := acts[..|acts| - 1], acts[|acts| - 1];
      SuccessIsFinal(s, init);
      RunKeepsInv(s, init);
      StepAfterSuccess(Exec(s, init), a);
    }
  }

  lemma StepAfterSuccess(s: State, a: Action)
    requires Inv(s) && Flips(s.log) != []
    ensures
      var t := Apply(s, a);
      && t.status.Completed? && t.completedAt == s.completedAt
      && Flips(t.log) == Flips(s.log)
      && t.users == OthersStep(s.users, a)
      && NoNewHolder(s.hooks, t.hooks)
  {
    if HookStep(s, a) {
      var o :| OwnedBy(s, o);
      if o != a.h {
        BystanderStep(s, a, o);
      } else {
        WinnerStep(s, a);
      }
    }
  }

  /** All a hook can still do after its flip is write its audit row. */
  lemma WinnerStep(s: State, a: Action)
    requires HookStep(s, a) && OwnedBy(s, a.h) && HasFlipped(s.hooks[a.h].phase)
    ensures
      var t := Apply(s, a);
      && t == s.(hooks := t.hooks, log := t.log) && t.hooks == s.hooks[a.h := t.hooks[a.h]]
      && Flips(t.log) == Flips(s.log)
  {
    var t := Apply(s, a);
    if t.log != s.log { FlipsSnoc(s.log, t.log[|s.log|]); }
  }

  // ---------- how runs end ----------

  predicate Throws(a: Action) { a.Crash? || a.LostReply? }

  predicate AllFinished(s: State) {
    forall h :: h in s.hooks ==> Finished(s.hooks[h].phase)
  }

  lemma {:induction false} NoThrowNoDeath(users: map<UserId, User>, acts: seq<Action>, h: HookId)
    requires forall a :: a in acts ==> !Throws(a)
    requires h in Exec(Init(users), acts).hooks
    ensures var p := Exec(Init(users), acts).hooks[h].phase;
            !p.DeadFree? && !p.DeadClaimed? && !p.DeadFlipped?
    decreases |acts|
  {
    if acts != [] {
      var init, a := acts[..|acts| - 1], acts[|acts| - 1];
      assert a in acts;
      forall b | b in init ensures !Throws(b) { assert b in acts; }
      if h in Exec(Init(users), init).hooks { NoThrowNoDeath(users, init, h); }
    }
  }

  /** A run in which no statement throws, once every hook is done, has either promoted exactly
      one user and completed the setup, or promoted nobody and left the gate open. */
  lemma QuietRunOutcome(users: map<UserId, User>, acts: seq<Action>)
    requires forall a :: a in acts ==> !Throws(a)
    requires AllFinished(Exec(Init(users), acts))
    ensures
      var s := Exec(Init(users), acts);
      && (s.status.Completed? <==> |Flips(s.log)| == 1)
      && (s.status.Pending? <==> |Flips(s.log)| == 0)
      && (s.status.Completed? <==> exists h :: h in s.hooks && s.hooks[h].phase.Won?)
  {
    RunKeepsInv(Init(users), acts);
    var s := Exec(Init(users), acts);
    if s.status.Completed? {
      var o :| OwnedBy(s, o);
      NoThrowNoDeath(users, acts, o);
    } else {
      forall h | h in s.hooks ensures !s.hooks[h].phase.Won? {
        assert h !in Holders(s);
      }
    }
  }

  predicate WedgedBy(s: State, h: HookId) { h in s.hooks && s.hooks[h].phase.DeadClaimed? }

  lemma WedgeState(s: State, h: HookId)
    requires Inv(s) && WedgedBy(s, h)
    ensures s.status.Completed? && Flips(s.log) == [] && OwnedBy(s, h)
  {
    assert h in Holders(s);
    var o :| OwnedBy(s, o);
  }

  lemma WedgeStep(s: State, a: Action, h: HookId)
    requires Inv(s) && WedgedBy(s, h)
    ensures WedgedBy(Apply(s, a), h)
  {
    WedgeState(s, h);
    if HookStep(s, a) && a.h != h { BystanderStep(s, a, h); }
  }

  /** A wedge is permanent: no hook that starts later can claim, and none gives the claim back. */
  lemma {:induction false} WedgeIsPermanent(s: State, acts: seq<Action>, h: HookId)
    requires Inv(s) && WedgedBy(s, h)
    ensures var t := Exec(s, acts); t.status.Completed? && Flips(t.log) == [] && WedgedBy(t, h)
    decreases |acts|
  {
    RunKeepsInv(s, acts);
    if acts != [] {
      var init := acts[..|acts| - 1];
      WedgeIsPermanent(s, init, h);
      RunKeepsInv(s, init);
      WedgeStep(Exec(s, init), acts[|acts| - 1], h);
    }
    WedgeState(Exec(s, acts), h);
  }

  /** The statement at which a throw takes the claim with it: the flip or the rollback did not
      happen, or the claim or a flip that hit no row did and its reply was lost. */
  predicate KillsHolder(s: State, a: Action) {
    && HookStep(s, a)
    && match s.hooks[a.h].phase
       case AtClaim => a.LostReply? && s.status.Pending?
       case AtFlip => a.Crash? || (a.LostReply? && !FlipHits(s, s.hooks[a.h].user))
       case AtRollback => a.Crash?
       case _ => false
  }

  lemma KillLeavesWedge(s: State, a: Action)
    requires KillsHolder(s, a)
    ensures WedgedBy(Apply(s, a), a.h)
  {
  }

  lemma OnlyKillsWedge(s: State, a: Action, h: HookId)
    requires WedgedBy(Apply(s, a), h) && !WedgedBy(s, h)
    ensures KillsHolder(s, a)
  {
  }

  ghost predicate KilledAt(users: map<UserId, User>, acts: seq<Action>, i: nat) {
    i < |acts| && KillsHolder(Exec(Init(users), acts[..i]), acts[i])
  }

  lemma {:induction false} WedgeWasKilled(users: map<UserId, User>, acts: seq<Action>, h: HookId) returns (i: nat)
    requires WedgedBy(Exec(Init(users), acts), h)
    ensures KilledAt(users, acts, i)
    decreases |acts|
  {
    var n := |acts| - 1;
    if WedgedBy(Exec(Init(users), acts[..n]), h) {
      i := WedgeWasKilled(users, acts[..n], h);
      assert acts[..n][..i] == acts[..i];
    } else {
      i := n;
      OnlyKillsWedge(Exec(Init(users), acts[..n]), acts[n], h);
    }
  }

  lemma {:induction false} KilledStaysWedged(users: map<UserId, User>, acts: seq<Action>, i: nat)
    requires KilledAt(users, acts, i)
    ensures WedgedBy(Exec(Init(users), acts), acts[i].h)
    decreases |acts|
  {
    var n := |acts| - 1;
    var before := Exec(Init(users), acts[..n]);
    if i == n {
      KillLeavesWedge(before, acts[n]);
    } else {
      assert acts[..n][..i] == acts[..i];
      KilledStaysWedged(users, acts[..n], i);
      InitInv(users);
      RunKeepsInv(Init(users), acts[..n]);
      WedgeStep(before, acts[n], acts[i].h);
    }
  }

  /** With throws the setup can be wedged: completed with nobody promoted.  When every hook is
      done, that happens exactly if at some step a throw took the claim with it, the one window
      the closure does not protect. */
  lemma WedgedExactlyByDeathAfterClaim(users: map<UserId, User>, acts: seq<Action>)
    requires AllFinished(Exec(Init(users), acts))
    ensures
      var s := Exec(Init(users), acts);
      (s.status.Completed? && Flips(s.log) == []) <==> (exists i: nat :: KilledAt(users, acts, i))
  {
    InitInv(users);
    RunKeepsInv(Init(users), acts);
    var s := Exec(Init(users), acts);
    if s.status.Completed? && Flips(s.log) == [] {
      var o :| OwnedBy(s, o);
      assert WedgedBy(s, o);
      var i := WedgeWasKilled(users, acts, o);
    }
    if i: nat :| KilledAt(users, acts, i) {
      KilledStaysWedged(users, acts, i);
      WedgeState(s, acts[i].h);
    }
  }

  /** Such a run exists. */
  lemma WedgeWitness()
    ensures
      var s := Exec(Init(map[7 := User(true, false)]), [Begin(0, 7, None), Advance(0, 1, ""), Crash(0)]);
      s.status.Completed? && Flips(s.log) == [] && AllFinished(s)
  {
    var s0 := Init(map[7 := User(true, false)]);
    var a0, a1, a2 := Begin(0, 7, None), Advance(0, 1, ""), Crash(0);
    assert [a0, a1, a2][..2] == [a0, a1];
    assert [a0, a1][..1] == [a0];
    assert [a0][..0] == [];
    assert Exec(s0, [a0]) == Apply(s0, a0);
    assert Exec(s0, [a0, a1]) == Apply(Apply(s0, a0), a1);
  }
}
