/**
 Where sessions and grants come from: each one in the store was asked for by a call of
 the owner's that passed its checks, and is what that call asked for.
 */
module Issuing {
  import opened Protocol
  import opened Stores
  import opened Broker
  import opened UseSafety
  import StoreLaws

  const QUARTER_HOUR := 900_000_000_000
  const HOUR := 3_600_000_000_000

  /** The lifetime a session request comes down to: a quarter of an hour unless it names one. */
  function Lifetime(a: Action): int
    requires a.CheckSessionRequest?
  {
    if a.ttl <= 0 then QUARTER_HOUR else a.ttl
  }

  /** A session request is in order: the owner's own, for at most an hour, and for an agent that stands. */
  predicate MayIssue(s: State, a: Action) {
    && a.CheckSessionRequest? && a.owns
    && Lifetime(a) <= HOUR && a.maxUses >= 0
    && a.agentId in s.agents && s.agents[a.agentId].revokedAt == None
  }

  /** A grant request is in order: a level there is, an agent that stands and is the owner's, an item that is there, to fetch only. */
  predicate MayGrant(s: State, a: Action) {
    && a.CheckGrantRequest?
    && (a.grant.level == Level1 || a.grant.level == Level2)
    && a.grant.actions == [Fetch]
    && a.grant.itemId in s.shelf.items && !s.shelf.items[a.grant.itemId].archived
    && (a.grant.agentId in s.agents ==>
          && s.agents[a.grant.agentId].revokedAt == None
          && (s.agents[a.grant.agentId].owner.id == "" || s.agents[a.grant.agentId].owner.id == a.owner))
    && (a.grant.agentId !in s.agents ==> a.member)
  }

  /** What is still to be written is what the check that passed asked for. */
  predicate AskedBy(s: State, a: Action, p: Pending) {
    match p
    case NewSession(orgId, agentId, ttl, maxUses) =>
      && MayIssue(s, a) && orgId == a.orgId && agentId == s.agents[a.agentId].id
      && ttl == Lifetime(a) && maxUses == a.maxUses
    case NewGrant(g) => MayGrant(s, a) && g == a.grant
  }

  /** The k-th step of the run is the check behind the j-th pending write. */
  ghost predicate AskedAt(sys: System, run: seq<Action>, k: nat, j: nat, p: Pending) {
    && k < |run| && (run[k].CheckSessionRequest? || run[k].CheckGrantRequest?) && run[k].j == j
    && AskedBy(Before(sys, run, k).store, run[k], p)
  }

  lemma PendingStep(sys: System, a: Action, j: nat)
    requires j in Step(sys, a).pending
    ensures (j in sys.pending && sys.pending[j] == Step(sys, a).pending[j])
            || ((a.CheckSessionRequest? || a.CheckGrantRequest?) && a.j == j &&
                AskedBy(sys.store, a, Step(sys, a).pending[j]))
  {
    hide StepUse;
    if IsUseStep(a) && At(sys, a.i) {
      UseStepKeeps(sys, a);
    }
  }

  lemma {:induction false} PendingWasAsked(sys: System, run: seq<Action>, j: nat) returns (k: nat)
    requires sys.pending == map[] && j in After(sys, run).pending
    ensures AskedAt(sys, run, k, j, After(sys, run).pending[j])
  {
    hide Step, AskedBy;
    var n := |run| - 1;
    var before := After(sys, run[..n]);
    PendingStep(before, run[n], j);
    if j in before.pending && before.pending[j] == After(sys, run).pending[j] {
      k := PendingWasAsked(sys, run[..n], j);
      assert run[..n][..k] == run[..k];
    } else {
      k := n;
    }
  }

  /** The session as the two steps of its creation make it. */
  function AsAsked(s: State, check: Action, issue: Action): Session
    requires check.CheckSessionRequest? && check.agentId in s.agents && issue.IssueSession?
  {
    Session(issue.id, check.orgId, s.agents[check.agentId].id, issue.now, issue.now + Lifetime(check), None, None,
            Lifetime(check) / 1_000_000_000, 3600, check.maxUses, 0)
  }

  /**
   Every session in the store was asked for and is as it was asked for: its agent, lifetime, maximum and limit on
   uses are those of its own request, which was in order, and it is counted and extended from there.
   */
  lemma {:induction false} SessionWasAskedFor(sys: System, run: seq<Action>, hash: Hash) returns (k: nat, i: nat)
    requires sys.store.sessions == map[] && sys.pending == map[]
    requires hash in After(sys, run).store.sessions
    ensures k < i < |run| && run[i].IssueSession? && run[i].hash == hash
    ensures MayIssue(Before(sys, run, k).store, run[k]) && run[k].j == run[i].j
    ensures Told(sys, run, hash).born == Some(AsAsked(Before(sys, run, k).store, run[k], run[i]))
    ensures Accounted(After(sys, run).store.sessions[hash], Told(sys, run, hash))
  {
    hide Step, Accounted, AskedBy, MayIssue;
    SessionsAreAccounted(sys, run, hash);
    var n := |run| - 1;
    var before := After(sys, run[..n]);
    if Issues(before, run[n], hash) {
      i := n;
      k := PendingWasAsked(sys, run[..n], run[n].j);
      assert run[..n][..k] == run[..k];
      BornAsAsked(before, run[n], Before(sys, run, k).store, run[k]);
    } else {
      StepKeepsSessions(before, run[n], hash);
      k, i := SessionWasAskedFor(sys, run[..n], hash);
      assert run[..n][..k] == run[..k];
    }
  }

  lemma BornAsAsked(sys: System, issue: Action, s: State, check: Action)
    requires issue.IssueSession? && issue.j in sys.pending && sys.pending[issue.j].NewSession?
    requires AskedBy(s, check, sys.pending[issue.j])
    ensures MayIssue(s, check)
    ensures Minted(sys.pending[issue.j], issue.id, issue.now) == AsAsked(s, check, issue)
  {
  }

  /** Every grant a step of the owner's writes was asked for, in order when it was, and is written as it was asked for. */
  lemma GrantWasAskedFor(sys: System, run: seq<Action>, i: nat) returns (k: nat)
    requires sys.pending == map[]
    requires i < |run| && run[i].IssueGrant?
    requires Before(sys, run, i + 1).store.grants != Before(sys, run, i).store.grants
    ensures k < i && run[k].CheckGrantRequest? && run[k].j == run[i].j
    ensures MayGrant(Before(sys, run, k).store, run[k])
    ensures Before(sys, run, i + 1).store == PutGrant(Before(sys, run, i).store, run[k].grant)
  {
    BeforeNext(sys, run, i);
    k := PendingWasAsked(sys, run[..i], run[i].j);
    assert run[..i][..k] == run[..k];
  }

  /** And a request that is in order is taken up, one that is not is dropped. */
  lemma RequestsAreTakenUpIff(sys: System, a: Action)
    requires (a.CheckSessionRequest? || a.CheckGrantRequest?) && a.j !in sys.pending
    ensures a.CheckSessionRequest? ==> (a.j in Step(sys, a).pending <==> MayIssue(sys.store, a))
    ensures a.CheckGrantRequest? ==> (a.j in Step(sys, a).pending <==> MayGrant(sys.store, a))
    ensures a.j in Step(sys, a).pending ==> AskedBy(sys.store, a, Step(sys, a).pending[a.j])
  {
    hide StepUse;
  }

  /** While one request is under way no other takes its place. */
  lemma PendingStands(sys: System, a: Action)
    requires (a.CheckSessionRequest? || a.CheckGrantRequest?) && a.j in sys.pending
    ensures Step(sys, a) == sys
  {
    hide StepUse;
  }

  // ---- what the owner's calls do ----

  /** A request that was taken up is written when its turn comes, and only once. */
  lemma RequestsAreWritten(sys: System, a: Action)
    requires (a.IssueSession? || a.IssueGrant?) && a.j in sys.pending
    requires a.IssueSession? <==> sys.pending[a.j].NewSession?
    ensures var t := Step(sys, a);
            && a.j !in t.pending && t.uses == sys.uses
            && (a.IssueSession? ==>
                  && t.store == sys.store.(sessions := t.store.sessions) && a.hash in t.store.sessions
                  && t.store.sessions[a.hash].id == a.id
                  && forall h :: h != a.hash && h in sys.store.sessions ==>
                       h in t.store.sessions && t.store.sessions[h] == sys.store.sessions[h])
            && (a.IssueGrant? ==>
                  var g := sys.pending[a.j].grant;
                  forall now :: Authorization(t.store, g.agentId, g.itemId, now).grant == Some(g))
  {
    hide StepUse;
  }

  /** What the owner says about agents and items is so afterwards. */
  lemma AgentsAndItemsTakeEffect(sys: System, a: Action)
    ensures var s, t := sys.store, Step(sys, a).store;
            && (a.AddAgent? ==> a.p.id in t.agents && t.agents[a.p.id].orgId == a.p.orgId
                                && t.agents[a.p.id].owner == a.p.owner)
            && (a.KillAgent? && a.id in s.agents ==>
                  t.agents[a.id].revokedAt != None && t.audit == s.audit + a.rows)
            && (a.StoreItem? ==>
                  && a.item.id in t.shelf.items && t.shelf.items[a.item.id] == a.item
                  && ReadSecret(t.shelf, a.item.id) == Ok(a.secret))
            && (a.HideItem? && a.id in s.shelf.items ==> t.shelf.items[a.id].archived)
            && (a.DropItem? ==> a.id !in t.shelf.items)
            && (a.RestoreItem? && a.id in s.shelf.items && Version(a.version, a.id) in s.shelf.versions
                && a.version in s.shelf.versionSecrets ==>
                  ReadSecret(t.shelf, a.id) == Ok(s.shelf.versionSecrets[a.version]))
  {
    hide StepUse;
  }

  /** So is what it says about approvals, sessions, old rows and the log. */
  lemma OtherCallsTakeEffect(sys: System, a: Action)
    ensures var s, t := sys.store, Step(sys, a).store;
            && (a.RecordApproval? ==>
                  a.approval.grantId in t.approvals && t.approvals[a.approval.grantId] == a.approval)
            && (a.Renew? && Knows(s, a.id) && (forall h :: HasId(s, h, a.id) ==> Live(s.sessions[h], a.at)) ==>
                  exists h :: HasId(t, h, a.id) && t.sessions[h].renewedAt == Some(a.at))
            && (a.SweepRows? ==>
                  && (forall h :: h in t.sessions ==> a.cut <= t.sessions[h].expiresAt)
                  && (forall k :: k in t.grants && t.grants[k].expiresAt != None ==>
                        a.cut <= t.grants[k].expiresAt.value)
                  && forall g :: g in t.approvals ==> a.cut <= t.approvals[g].expiresAt)
            && (a.LogRows? ==> t == s.(audit := s.audit + a.rows))
  {
    hide StepUse;
    if a.SweepRows? {
      StoreLaws.SweepLeaves(sys.store, a.cut);
    }
    if a.Renew? && Knows(sys.store, a.id) {
      var h := Locate(sys.store, a.id);
      StoreLaws.RenewIff(sys.store, h, a.at);
      assert HasId(Step(sys, a).store, h, a.id);
    }
  }
}
