/** What the hooks write besides the claim: audit rows, users' roles and the time of the claim. */
module SetupRows {
  import opened JsText
  import opened SetupClaim
  import opened SetupOutcome

  // ---------- a schedule and the states it runs through ----------

  /** The states before each step of the schedule and after the last. */
  function Trace(users: map<UserId, User>, acts: seq<Action>): (states: seq<State>)
    ensures |states| == |acts| + 1 && states[|acts|] == Exec(Init(users), acts)
    ensures forall m :: 0 <= m <= |acts| ==> states[m] == Exec(Init(users), acts[..m])
  {
    assert acts[..|acts|] == acts;
    seq(|acts| + 1, m requires 0 <= m <= |acts| => Exec(Init(users), acts[..m]))
  }

  ghost predicate IsRun(states: seq<State>, acts: seq<Action>) {
    && |states| == |acts| + 1 && states[0].hooks == map[] && states[0].log == [] && states[0].status.Pending?
    && forall m :: 0 <= m < |acts| ==> states[m + 1] == Apply(states[m], acts[m])
  }

  lemma TraceIsRun(users: map<UserId, User>, acts: seq<Action>)
    ensures IsRun(Trace(users, acts), acts) && Trace(users, acts)[0] == Init(users)
  {
    forall m | 0 <= m < |acts| ensures Trace(users, acts)[m + 1] == Apply(Trace(users, acts)[m], acts[m]) {
      assert acts[..m + 1][..m] == acts[..m];
    }
  }

  // ---------- what a step writes ----------

  /** The statement the hook stands at is committed in this step. */
  predicate CommitsAt(s: State, a: Action, p: Phase) {
    (a.Advance? || a.LostReply?) && a.h in s.hooks && s.hooks[a.h].phase == p
  }

  predicate Claims(s: State, a: Action) { CommitsAt(s, a, AtClaim) && s.status.Pending? }

  predicate GivesBack(s: State, a: Action) { CommitsAt(s, a, AtRollback) }

  predicate Promotes(s: State, a: Action) {
    CommitsAt(s, a, AtFlip) && s.hooks[a.h].user in s.users && s.users[s.hooks[a.h].user].verified
  }

  predicate InsertsAudit(s: State, a: Action) { CommitsAt(s, a, AtAudit) }

  /** The hook's own tenant, or else the default one as the step finds it. */
  function TenantFor(hook: Hook, a: Action): string
    requires a.Advance? || a.LostReply?
  {
    match hook.tenant
    case Some(tenant) => tenant
    case None => a.defaultTenant
  }

  function MadeAdmin(users: map<UserId, User>, u: UserId): map<UserId, User>
    requires u in users
  {
    users[u := User(users[u].verified, true)]
  }

  /** Each statement writes its own row and no other. */
  lemma LogStep(s: State, a: Action)
    ensures Apply(s, a).log == s.log +
      if Promotes(s, a) then [RoleFlip(a.h, s.hooks[a.h].user)]
      else if InsertsAudit(s, a) then [AuditRow(a.h, s.hooks[a.h].user, TenantFor(s.hooks[a.h], a))]
      else []
  {
  }

  lemma RowsStep(s: State, a: Action)
    ensures Apply(s, a).users ==
      if Promotes(s, a) then MadeAdmin(s.users, s.hooks[a.h].user) else OthersStep(s.users, a)
  {
  }

  lemma ClaimStep(s: State, a: Action)
    ensures Apply(s, a).completedAt ==
      if Claims(s, a) then Some(a.now) else if GivesBack(s, a) then None else s.completedAt
    ensures Apply(s, a).status ==
      if Claims(s, a) then Completed else if GivesBack(s, a) then Pending else s.status
  {
  }

  // ---------- audit rows ----------

  function AuditRowsOf(log: seq<Event>, h: HookId): seq<Event> {
    if log == [] then []
    else
      var e := log[|log| - 1];
      AuditRowsOf(log[..|log| - 1], h) + if e.AuditRow? && e.hook == h then [e] else []
  }

  lemma AuditRowsSnoc(log: seq<Event>, e: Event, h: HookId)
    ensures AuditRowsOf(log + [e], h) == AuditRowsOf(log, h) + if e.AuditRow? && e.hook == h then [e] else []
  {
    assert (log + [e])[..|log|] == log;
  }

  lemma AuditStep(s: State, a: Action, t: State, h: HookId)
    requires t == Apply(s, a)
    ensures AuditRowsOf(t.log, h) == AuditRowsOf(s.log, h)
            + if InsertsAudit(s, a) && a.h == h then [AuditRow(h, s.hooks[h].user, TenantFor(s.hooks[h], a))] else []
  {
    LogStep(s, a);
    if Promotes(s, a) {
      AuditRowsSnoc(s.log, RoleFlip(a.h, s.hooks[a.h].user), h);
    } else if InsertsAudit(s, a) {
      AuditRowsSnoc(s.log, AuditRow(a.h, s.hooks[a.h].user, TenantFor(s.hooks[a.h], a)), h);
    }
  }

  lemma HookKeepsItsUser(s: State, a: Action, h: HookId)
    requires h in s.hooks
    ensures var t := Apply(s, a);
            h in t.hooks && t.hooks[h].user == s.hooks[h].user && t.hooks[h].tenant == s.hooks[h].tenant
  {
  }

  predicate PastAudit(s: State, h: HookId) {
    h in s.hooks && (s.hooks[h].phase.Won? || s.hooks[h].phase.DeadFlipped?)
  }

  lemma AuditHappensOnce(s: State, a: Action, h: HookId)
    ensures InsertsAudit(s, a) && a.h == h ==> PastAudit(Apply(s, a), h) && !PastAudit(s, h)
    ensures PastAudit(s, h) ==> PastAudit(Apply(s, a), h)
  {
  }

  /** At step i of the run hook h's audit insert is committed. */
  ghost predicate AuditedAt(states: seq<State>, acts: seq<Action>, h: HookId, i: nat)
    requires |states| == |acts| + 1
  {
    i < |acts| && InsertsAudit(states[i], acts[i]) && acts[i].h == h
  }

  /** After n steps hook h has no audit row and no step inserted one, or it has the one of step i. */
  ghost predicate NotAudited(states: seq<State>, acts: seq<Action>, h: HookId, n: nat)
    requires n <= |acts| && |states| == |acts| + 1
  {
    AuditRowsOf(states[n].log, h) == [] && forall i: nat :: i < n ==> !AuditedAt(states, acts, h, i)
  }

  ghost predicate AuditedBy(states: seq<State>, acts: seq<Action>, h: HookId, n: nat, i: nat)
    requires n <= |acts| && |states| == |acts| + 1
  {
    && i < n && AuditedAt(states, acts, h, i) && PastAudit(states[n], h)
    && AuditRowsOf(states[n].log, h) == [AuditRow(h, states[n].hooks[h].user, TenantFor(states[n].hooks[h], acts[i]))]
    && forall j: nat :: j < n && AuditedAt(states, acts, h, j) ==> j == i
  }

  /** The hook is past its audit insert, and from s to t nothing about that changes. */
  predicate StaysAudited(s: State, t: State, h: HookId) {
    && PastAudit(s, h) && PastAudit(t, h) && AuditRowsOf(t.log, h) == AuditRowsOf(s.log, h)
    && t.hooks[h].user == s.hooks[h].user && t.hooks[h].tenant == s.hooks[h].tenant
  }

  lemma AuditedStaysSo(s: State, a: Action, t: State, h: HookId)
    requires t == Apply(s, a) && PastAudit(s, h)
    ensures StaysAudited(s, t, h) && !(InsertsAudit(s, a) && a.h == h)
  {
    AuditStep(s, a, t, h);
    AuditHappensOnce(s, a, h);
    HookKeepsItsUser(s, a, h);
  }

  lemma StillAuditedBy(states: seq<State>, acts: seq<Action>, h: HookId, k: nat, i: nat)
    requires |states| == |acts| + 1 && k < |acts| && AuditedBy(states, acts, h, k, i)
    requires StaysAudited(states[k], states[k + 1], h) && !AuditedAt(states, acts, h, k)
    ensures AuditedBy(states, acts, h, k + 1, i)
  {
  }

  lemma NowAuditedBy(states: seq<State>, acts: seq<Action>, h: HookId, k: nat)
    requires IsRun(states, acts) && k < |acts| && NotAudited(states, acts, h, k) && AuditedAt(states, acts, h, k)
    ensures AuditedBy(states, acts, h, k + 1, k)
  {
    AuditStep(states[k], acts[k], states[k + 1], h);
    AuditHappensOnce(states[k], acts[k], h);
    HookKeepsItsUser(states[k], acts[k], h);
  }

  lemma StillNotAudited(states: seq<State>, acts: seq<Action>, h: HookId, k: nat)
    requires IsRun(states, acts) && k < |acts| && NotAudited(states, acts, h, k) && !AuditedAt(states, acts, h, k)
    ensures NotAudited(states, acts, h, k + 1)
  {
    AuditStep(states[k], acts[k], states[k + 1], h);
  }

  /** After n steps: the row inserted by step `at`, or none. */
  ghost predicate AuditStatus(states: seq<State>, acts: seq<Action>, h: HookId, n: nat, at: Option<nat>)
    requires n <= |acts| && |states| == |acts| + 1
  {
    if at.Some? then AuditedBy(states, acts, h, n, at.value) else NotAudited(states, acts, h, n)
  }

  lemma StepOfRun(states: seq<State>, acts: seq<Action>, k: nat)
    requires IsRun(states, acts) && k < |acts|
    ensures states[k + 1] == Apply(states[k], acts[k])
  {
  }

  lemma NextStatus(states: seq<State>, acts: seq<Action>, h: HookId, k: nat, at: Option<nat>) returns (next: Option<nat>)
    requires IsRun(states, acts) && k < |acts| && AuditStatus(states, acts, h, k, at)
    ensures AuditStatus(states, acts, h, k + 1, next)
  {
    next := at;
    if at.Some? {
      StepOfRun(states, acts, k);
      AuditedStaysSo(states[k], acts[k], states[k + 1], h);
      StillAuditedBy(states, acts, h, k, at.value);
    } else if AuditedAt(states, acts, h, k) {
      NowAuditedBy(states, acts, h, k);
      next := Some(k);
    } else {
      StillNotAudited(states, acts, h, k);
    }
  }

  lemma {:induction false} AuditRowsAre(states: seq<State>, acts: seq<Action>, h: HookId, n: nat) returns (at: Option<nat>)
    requires IsRun(states, acts) && n <= |acts|
    ensures AuditStatus(states, acts, h, n, at)
    decreases n
  {
    if n == 0 {
      at := None;
    } else {
      at := AuditRowsAre(states, acts, h, n - 1);
      at := NextStatus(states, acts, h, n - 1, at);
    }
  }

  /** A hook has one audit row iff some step commits its insert, and none otherwise; the row names
      the hook's user and its own tenant, or the default tenant of that step. */
  lemma AuditRowIff(users: map<UserId, User>, acts: seq<Action>, h: HookId)
    ensures var states := Trace(users, acts); var s := states[|acts|]; var rows := AuditRowsOf(s.log, h);
      && (|rows| == 1 <==> exists i: nat :: AuditedAt(states, acts, h, i))
      && (|rows| == 0 <==> forall i: nat :: !AuditedAt(states, acts, h, i))
      && forall i: nat :: AuditedAt(states, acts, h, i) ==>
           h in s.hooks && rows == [AuditRow(h, s.hooks[h].user, TenantFor(s.hooks[h], acts[i]))]
  {
    TraceIsRun(users, acts);
    var at := AuditRowsAre(Trace(users, acts), acts, h, |acts|);
  }

  /** Hook h has won and has the audit rows of s. */
  predicate WonAsIn(s: State, t: State, h: HookId) {
    h in t.hooks && t.hooks[h].phase.Won? && AuditRowsOf(t.log, h) == AuditRowsOf(s.log, h)
  }

  lemma AuditFailureStep(s: State, a: Action, t: State, h: HookId)
    requires t == Apply(s, a) && h in s.hooks
    ensures s.hooks[h].phase.AtAudit? && a == AuditFails(h) ==> WonAsIn(s, t, h)
    ensures s.hooks[h].phase.Won? ==> WonAsIn(s, t, h)
  {
    AuditStep(s, a, t, h);
  }

  /** An audit insert that throws is caught: the hook has won at once and for good, without a row. */
  lemma {:induction false} AuditFailureStillWins(states: seq<State>, acts: seq<Action>, h: HookId, i: nat, n: nat)
    requires IsRun(states, acts) && i < n <= |acts| && acts[i] == AuditFails(h)
    requires h in states[i].hooks && states[i].hooks[h].phase.AtAudit?
    ensures WonAsIn(states[i], states[n], h)
    decreases n
  {
    StepOfRun(states, acts, n - 1);
    if i < n - 1 { AuditFailureStillWins(states, acts, h, i, n - 1); }
    AuditFailureStep(states[n - 1], acts[n - 1], states[n], h);
  }

  // ---------- a run in which nothing goes wrong ----------

  predicate Quiet(acts: seq<Action>) {
    forall i :: 0 <= i < |acts| ==> !Throws(acts[i]) && !acts[i].AuditFails?
  }

  /** In such a run a hook has won exactly if its audit row is there. */
  lemma {:induction false} WonMeansAudited(states: seq<State>, acts: seq<Action>, h: HookId, n: nat)
    requires IsRun(states, acts) && Quiet(acts) && n <= |acts|
    ensures |AuditRowsOf(states[n].log, h)| == (if h in states[n].hooks && states[n].hooks[h].phase.Won? then 1 else 0)
    ensures h in states[n].hooks ==> !states[n].hooks[h].phase.DeadFlipped?
    decreases n
  {
    if n > 0 {
      var k := n - 1;
      assert states[k + 1] == Apply(states[k], acts[k]);
      WonMeansAudited(states, acts, h, k);
      AuditStep(states[k], acts[k], states[n], h);
      QuietStep(states[k], acts[k], h);
    }
  }

  lemma QuietStep(s: State, a: Action, h: HookId)
    requires !Throws(a) && !a.AuditFails? && (h in s.hooks ==> !s.hooks[h].phase.DeadFlipped?)
    ensures var t := Apply(s, a);
      && (h in t.hooks ==> !t.hooks[h].phase.DeadFlipped?)
      && (h in t.hooks && t.hooks[h].phase.Won? <==>
            (h in s.hooks && s.hooks[h].phase.Won?) || (InsertsAudit(s, a) && a.h == h))
      && !(h in s.hooks && s.hooks[h].phase.Won? && InsertsAudit(s, a) && a.h == h)
  {
  }

  /** When every hook is done and nothing was thrown, somebody was promoted exactly if some hook has
      one audit row; that row's hook is the one that promoted its user. */
  lemma QuietRunIsAudited(users: map<UserId, User>, acts: seq<Action>)
    requires Quiet(acts) && AllFinished(Exec(Init(users), acts))
    ensures
      var s := Exec(Init(users), acts);
      && (|Flips(s.log)| == 1 <==> exists h :: |AuditRowsOf(s.log, h)| == 1)
      && forall h :: |AuditRowsOf(s.log, h)| == 1 ==> h in s.hooks && Flips(s.log) == [RoleFlip(h, s.hooks[h].user)]
  {
    var s := Exec(Init(users), acts);
    TraceIsRun(users, acts);
    InitInv(users);
    RunKeepsInv(Init(users), acts);
    forall a | a in acts ensures !Throws(a) {
    }
    QuietRunOutcome(users, acts);
    if |Flips(s.log)| == 1 {
      var h :| h in s.hooks && s.hooks[h].phase.Won?;
      WonMeansAudited(Trace(users, acts), acts, h, |acts|);
      assert |AuditRowsOf(s.log, h)| == 1;
    }
    forall h | |AuditRowsOf(s.log, h)| == 1 ensures OwnedBy(s, h) && s.hooks[h].phase.Won? {
      WonMeansAudited(Trace(users, acts), acts, h, |acts|);
      WinnerOwns(s, h);
    }
  }

  lemma WinnerOwns(s: State, h: HookId)
    requires Inv(s) && h in s.hooks && s.hooks[h].phase.Won?
    ensures OwnedBy(s, h)
  {
    assert h in Holders(s);
    var o :| OwnedBy(s, o);
  }

  // ---------- users' rows ----------

  /** The users' rows before step i, and after n steps what other code made of them with u an admin. */
  ghost predicate PromotedAt(states: seq<State>, acts: seq<Action>, n: nat, i: nat)
    requires n <= |acts| && |states| == |acts| + 1
  {
    && i < n && Promotes(states[i], acts[i])
    && states[n].users == OthersOnly(MadeAdmin(states[i].users, states[i].hooks[acts[i].h].user), acts[i + 1..n])
  }

  lemma OthersSnoc(users: map<UserId, User>, acts: seq<Action>, lo: nat, n: nat)
    requires lo <= n < |acts|
    ensures OthersOnly(users, acts[lo..n + 1]) == OthersStep(OthersOnly(users, acts[lo..n]), acts[n])
  {
    assert acts[lo..n + 1][..n - lo] == acts[lo..n];
  }

  ghost predicate OneFlipAtMost(states: seq<State>) { forall m :: 0 <= m < |states| ==> |Flips(states[m].log)| <= 1 }

  /** Until a role is flipped the users' rows are what other code made of them; the flip gives the
      role to the hook's own verified user, changes no other row, and is the only one. */
  lemma {:induction false} RowsAreOthersPlusFlip(states: seq<State>, acts: seq<Action>, n: nat) returns (at: Option<nat>)
    requires IsRun(states, acts) && OneFlipAtMost(states) && n <= |acts|
    ensures match at
            case None => Flips(states[n].log) == [] && states[n].users == OthersOnly(states[0].users, acts[..n])
            case Some(i) => |Flips(states[n].log)| == 1 && PromotedAt(states, acts, n, i)
                            && states[i].users == OthersOnly(states[0].users, acts[..i])
    decreases n
  {
    if n == 0 { return None; }
    var k := n - 1;
    assert states[k + 1] == Apply(states[k], acts[k]);
    at := RowsAreOthersPlusFlip(states, acts, k);
    RowsStep(states[k], acts[k]);
    FlipsStep(states[k], acts[k]);
    match at {
      case None =>
        OthersSnoc(states[0].users, acts, 0, k);
        if Promotes(states[k], acts[k]) {
          at := Some(k);
          assert acts[k + 1..n] == [];
        }
      case Some(i) =>
        OthersSnoc(MadeAdmin(states[i].users, states[i].hooks[acts[i].h].user), acts, i + 1, k);
    }
  }

  lemma FlipsStep(s: State, a: Action)
    ensures |Flips(Apply(s, a).log)| == |Flips(s.log)| + if Promotes(s, a) then 1 else 0
  {
    LogStep(s, a);
    if Promotes(s, a) {
      FlipsSnoc(s.log, RoleFlip(a.h, s.hooks[a.h].user));
    } else if InsertsAudit(s, a) {
      FlipsSnoc(s.log, AuditRow(a.h, s.hooks[a.h].user, TenantFor(s.hooks[a.h], a)));
    }
  }

  /** So, for every run: the users' rows at the end. */
  lemma UsersAreOthersPlusFlip(users: map<UserId, User>, acts: seq<Action>) returns (at: Option<nat>)
    ensures var states := Trace(users, acts);
            match at
            case None => Flips(states[|acts|].log) == [] && states[|acts|].users == OthersOnly(users, acts)
            case Some(i) => |Flips(states[|acts|].log)| == 1 && PromotedAt(states, acts, |acts|, i)
                            && states[i].users == OthersOnly(users, acts[..i])
  {
    var states := Trace(users, acts);
    TraceIsRun(users, acts);
    forall m | 0 <= m < |states| ensures |Flips(states[m].log)| <= 1 { TokenConserved(users, acts[..m]); }
    assert acts[..|acts|] == acts;
    at := RowsAreOthersPlusFlip(states, acts, |acts|);
  }

  // ---------- the time of the claim ----------

  lemma {:induction false} TimeIsTheClaims(states: seq<State>, acts: seq<Action>, n: nat) returns (i: nat)
    requires IsRun(states, acts) && n <= |acts| && states[n].status.Completed?
    ensures i < n && Claims(states[i], acts[i]) && states[n].completedAt == Some(acts[i].now)
    ensures forall j :: i < j < n ==> !Claims(states[j], acts[j]) && !GivesBack(states[j], acts[j])
    decreases n
  {
    i := n - 1;
    assert states[i + 1] == Apply(states[i], acts[i]);
    ClaimStep(states[i], acts[i]);
    if !Claims(states[i], acts[i]) { i := TimeIsTheClaims(states, acts, n - 1); }
  }

  /** The time in the row is that of the last claim, and nobody has given the claim back since. */
  lemma CompletedAtIsTheClaims(users: map<UserId, User>, acts: seq<Action>) returns (i: nat)
    requires Exec(Init(users), acts).status.Completed?
    ensures var states := Trace(users, acts);
      && i < |acts| && Claims(states[i], acts[i]) && states[|acts|].completedAt == Some(acts[i].now)
      && forall j :: i < j < |acts| ==> !Claims(states[j], acts[j]) && !GivesBack(states[j], acts[j])
  {
    TraceIsRun(users, acts);
    i := TimeIsTheClaims(Trace(users, acts), acts, |acts|);
  }

  // ---------- the life of a hook ----------

  predicate Begins(a: Action, h: HookId) { a.Begin? && a.h == h }

  predicate FirstBegin(acts: seq<Action>, n: nat, h: HookId, i: nat)
    requires n <= |acts|
  {
    i < n && Begins(acts[i], h) && forall j :: 0 <= j < i ==> !Begins(acts[j], h)
  }

  lemma BeginStep(s: State, a: Action, t: State, h: HookId)
    requires t == Apply(s, a)
    ensures h in t.hooks <==> h in s.hooks || Begins(a, h)
    ensures h in s.hooks ==> t.hooks[h].user == s.hooks[h].user && t.hooks[h].tenant == s.hooks[h].tenant
    ensures h !in s.hooks && Begins(a, h) ==> t.hooks[h] == Hook(a.user, a.tenant, AtClaim)
  {
  }

  /** A hook works for the user and the tenant it was first begun with. */
  lemma {:induction false} HookIsAsBegun(states: seq<State>, acts: seq<Action>, n: nat, h: HookId)
    requires IsRun(states, acts) && n <= |acts| && states[0].hooks == map[]
    ensures h in states[n].hooks <==> exists i: nat :: FirstBegin(acts, n, h, i)
    ensures forall i: nat :: FirstBegin(acts, n, h, i) ==>
      states[n].hooks[h].user == acts[i].user && states[n].hooks[h].tenant == acts[i].tenant
    decreases n
  {
    if n > 0 {
      var k := n - 1;
      HookIsAsBegun(states, acts, k, h);
      assert states[k + 1] == Apply(states[k], acts[k]);
      BeginStep(states[k], acts[k], states[n], h);
      if i: nat :| FirstBegin(acts, k, h, i) {
        assert FirstBegin(acts, n, h, i);
        forall j: nat | FirstBegin(acts, n, h, j) ensures j == i { }
      } else if Begins(acts[k], h) {
        NoneBefore(acts, k, h);
      }
      forall i: nat | FirstBegin(acts, n, h, i) ensures FirstBegin(acts, k, h, i) || i == k {
      }
    }
  }

  lemma {:induction false} NoneBefore(acts: seq<Action>, k: nat, h: HookId)
    requires k < |acts| && Begins(acts[k], h) && forall i: nat :: !FirstBegin(acts, k, h, i)
    ensures FirstBegin(acts, k + 1, h, k)
  {
    if j :| 0 <= j < k && Begins(acts[j], h) { var i := EarliestBegin(acts, k, h, j); }
  }

  lemma {:induction false} EarliestBegin(acts: seq<Action>, k: nat, h: HookId, j: nat) returns (i: nat)
    requires j < k <= |acts| && Begins(acts[j], h)
    ensures FirstBegin(acts, k, h, i)
    decreases j
  {
    if m :| 0 <= m < j && Begins(acts[m], h) { i := EarliestBegin(acts, k, h, m); } else { i := j; }
  }

  /** Statements a hook still has before it at most. */
  function Left(p: Phase): nat { if p.AtClaim? then 3 else if p.AtFlip? then 2 else if Finished(p) then 0 else 1 }

  predicate OwnStep(a: Action, h: HookId) { (a.Advance? || a.Crash? || a.LostReply?) && a.h == h }

  function OwnSteps(acts: seq<Action>, h: HookId): nat {
    if acts == [] then 0
    else OwnSteps(acts[..|acts| - 1], h) + if OwnStep(acts[|acts| - 1], h) then 1 else 0
  }

  lemma LeftStep(s: State, a: Action, h: HookId)
    requires h in s.hooks
    ensures var t := Apply(s, a);
      h in t.hooks && Left(t.hooks[h].phase) <= Left(s.hooks[h].phase)
      && (OwnStep(a, h) && !Finished(s.hooks[h].phase) ==> Left(t.hooks[h].phase) < Left(s.hooks[h].phase))
  {
  }

  /** A hook never starts over: after three statements of its own it has ended, whatever they did. */
  lemma {:induction false} ThreeStatementsEnd(s: State, acts: seq<Action>, h: HookId)
    requires h in s.hooks
    ensures var t := Exec(s, acts);
      h in t.hooks && (Left(t.hooks[h].phase) == 0 || Left(t.hooks[h].phase) + OwnSteps(acts, h) <= Left(s.hooks[h].phase))
    ensures OwnSteps(acts, h) >= 3 ==> Finished(Exec(s, acts).hooks[h].phase)
    decreases |acts|
  {
    if acts != [] {
      var n := |acts| - 1;
      ThreeStatementsEnd(s, acts[..n], h);
      LeftStep(Exec(s, acts[..n]), acts[n], h);
    }
  }
}
