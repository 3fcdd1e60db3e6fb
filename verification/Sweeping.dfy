/**
 Sweeping deletes terminally dead rows. From any state on, and under any later
 interleaving at times from the cutoff on, the swept store and the unswept one
 answer every Use alike, but for the reason given with a refusal: a bisimulation.
 */
module Sweeping {
  import opened Protocol
  import opened Grants
  import opened Stores
  import opened Broker

  // ---- what may differ ----

  /** A result without the reason of a refusal. */
  function Blur(r: UseResult): UseResult {
    if r.decision == Deny then r.(reason := "") else r
  }

  function BlurRow(e: AuditEvent): AuditEvent {
    if e.decision == Deny then e.(reason := "") else e
  }

  function BlurStage(st: Stage): Stage {
    match st
    case Reloading(agent, item, decision) => Reloading(agent, item, Blur(decision))
    case Reporting(row, refusal) => Reporting(BlurRow(row), Blur(refusal))
    case Finished(outcome) => if outcome.Answer? then Finished(Answer(Blur(outcome.result))) else st
    case _ => st
  }

  predicate SameLog(s: seq<AuditEvent>, t: seq<AuditEvent>) {
    |s| == |t| && forall i :: 0 <= i < |s| ==> BlurRow(s[i]) == BlurRow(t[i])
  }

  // ---- the simulation relation ----

  predicate Dead(sess: Session, cut: Time) {
    sess.revokedAt.Some? || sess.expiresAt < cut
  }

  predicate FewerSessions(m: map<Hash, Session>, n: map<Hash, Session>, cut: Time) {
    && (forall h :: h in n ==> h in m && m[h] == n[h])
    && (forall h :: h in m && h !in n ==> Dead(m[h], cut))
  }

  predicate FewerGrants(m: map<(string, string), Grant>, n: map<(string, string), Grant>, cut: Time) {
    && (forall k :: k in n ==> k in m && m[k] == n[k])
    && (forall k :: k in m && k !in n ==> GrantSwept(m[k], cut))
  }

  predicate FewerApprovals(m: map<string, Approval>, n: map<string, Approval>, cut: Time) {
    && (forall g :: g in n ==> g in m && m[g] == n[g])
    && (forall g :: g in m && g !in n ==> ApprovalSwept(m[g], cut))
  }

  /** What a sweep never touches. */
  predicate SameRest(s: State, t: State) {
    s.agents == t.agents && s.shelf == t.shelf
  }

  /** t is s without some sessions, grants and approvals that no time from the cutoff on can bring to life. */
  predicate Missing(s: State, t: State, cut: Time) {
    && SameRest(s, t)
    && SameLog(s.audit, t.audit)
    && FewerSessions(s.sessions, t.sessions, cut)
    && FewerGrants(s.grants, t.grants, cut)
    && FewerApprovals(s.approvals, t.approvals, cut)
  }

  predicate UniqueIds(m: map<Hash, Session>) {
    forall g, h :: g in m && h in m && m[g].id == m[h].id ==> g == h
  }

  predicate SameUse(u: Use, v: Use, cut: Time) {
    v == u.(stage := v.stage) && BlurStage(u.stage) == BlurStage(v.stage) && u.now >= cut
  }

  predicate Alike(sys: System, swept: System, cut: Time) {
    && Missing(sys.store, swept.store, cut)
    && UniqueIds(sys.store.sessions)
    && sys.pending == swept.pending
    && sys.uses.Keys == swept.uses.Keys
    && forall i :: i in sys.uses ==> SameUse(sys.uses[i], swept.uses[i], cut)
  }

  /** Calls begin, and leases are renewed, at times from the cutoff on. */
  predicate Timely(a: Action, cut: Time) {
    (a.Start? ==> a.now >= cut) && (a.Renew? ==> a.at >= cut)
  }

  /** Session ids are random: a new one is not in use under another token. */
  predicate Fresh(sys: System, a: Action) {
    a.IssueSession? ==> forall h :: h in sys.store.sessions && h != a.hash ==> sys.store.sessions[h].id != a.id
  }

  // ---- the relation under updates ----

  lemma SetBoth(m: map<Hash, Session>, n: map<Hash, Session>, cut: Time, hash: Hash, sess: Session)
    requires FewerSessions(m, n, cut)
    ensures FewerSessions(m[hash := sess], n[hash := sess], cut)
  {
  }

  lemma SetDead(m: map<Hash, Session>, n: map<Hash, Session>, cut: Time, hash: Hash, sess: Session)
    requires FewerSessions(m, n, cut) && hash !in n && Dead(sess, cut)
    ensures FewerSessions(m[hash := sess], n, cut)
  {
  }

  lemma SetKeepsIds(m: map<Hash, Session>, hash: Hash, sess: Session)
    requires UniqueIds(m)
    requires forall h :: h in m && h != hash ==> m[h].id != sess.id
    ensures UniqueIds(m[hash := sess])
  {
  }

  lemma LogBoth(s: seq<AuditEvent>, t: seq<AuditEvent>, rows: seq<AuditEvent>, rows': seq<AuditEvent>)
    requires SameLog(s, t) && SameLog(rows, rows')
    ensures SameLog(s + rows, t + rows')
  {
  }

  lemma SweepBoth(s: State, t: State, cut: Time, again: Time)
    requires Missing(s, t, cut)
    ensures Missing(Sweep(s, again), Sweep(t, again), cut)
    ensures UniqueIds(s.sessions) ==> UniqueIds(Sweep(s, again).sessions)
  {
    assert FewerSessions(Sweep(s, again).sessions, Sweep(t, again).sessions, cut);
    assert FewerGrants(Sweep(s, again).grants, Sweep(t, again).grants, cut);
    assert FewerApprovals(Sweep(s, again).approvals, Sweep(t, again).approvals, cut);
  }

  // ---- one step ----

  lemma SameDecision(s: State, t: State, cut: Time, agentId: string, itemId: string, now: Time)
    requires Missing(s, t, cut) && now + 1 >= cut
    ensures var a, b := Authorization(s, agentId, itemId, now), Authorization(t, agentId, itemId, now);
            && a.agent == b.agent && a.item == b.item
            && (a != b ==> b.grant.None? && a.grant.Some? && GrantSwept(a.grant.value, cut))
    ensures forall p, act, u ::
              var a, b := Authorization(s, agentId, itemId, now), Authorization(t, agentId, itemId, now);
              Blur(Evaluate(Input(p, a.item, a.grant, act, u, a.approval, now)))
              == Blur(Evaluate(Input(p, b.item, b.grant, act, u, b.approval, now)))
  {
  }

  lemma SameCheck(s: State, t: State, cut: Time, hash: Hash, now: Time)
    requires Missing(s, t, cut) && now + 1 >= cut
    ensures CheckSession(s, hash, now) == CheckSession(t, hash, now)
            || (CheckSession(s, hash, now).Err? && CheckSession(t, hash, now).Err? && hash !in t.sessions)
  {
  }

  lemma SameSnapshot(s: State, t: State, cut: Time, u: Use)
    requires Missing(s, t, cut) && u.now + 1 >= cut
    ensures BlurStage(AfterSnapshot(s, u)) == BlurStage(AfterSnapshot(t, u))
  {
    hide Evaluate, Missing, Authorization;
    match u.caller
    case ByAgent(p) =>
      SameDecision(s, t, cut, p.id, u.request.itemId, u.now);
    case BySession(hash) =>
      SameCheck(s, t, cut, hash, u.now);
      if CheckSession(s, hash, u.now).Ok? {
        SameDecision(s, t, cut, s.sessions[hash].agentId, u.request.itemId, u.now);
      }
  }

  lemma SameReload(s: State, t: State, cut: Time, u: Use, v: Use)
    requires Missing(s, t, cut) && SameUse(u, v, cut) && u.stage.Reloading?
    ensures v.stage.Reloading?
    ensures BlurStage(AfterReload(s, u)) == BlurStage(AfterReload(t, v))
  {
  }

  lemma ConsumeAlike(s: State, t: State, cut: Time, hash: Hash, now: Time, row: AuditEvent)
    requires Missing(s, t, cut) && UniqueIds(s.sessions) && now >= cut
    ensures var r, q := Consume(s, hash, now, row).1, Consume(t, hash, now, row).1;
            r == q || (r.Err? && q.Err?)
    ensures Missing(Consume(s, hash, now, row).0, Consume(t, hash, now, row).0, cut)
    ensures UniqueIds(Consume(s, hash, now, row).0.sessions)
  {
    SameCheck(s, t, cut, hash, now);
    if Consume(s, hash, now, row).1.Ok? {
      var sess := s.sessions[hash];
      var counted := sess.(uses := sess.uses + 1);
      var a := s.agents[sess.agentId];
      var written := row.(orgId := a.orgId, agentId := a.id);
      SetBoth(s.sessions, t.sessions, cut, hash, counted);
      SetKeepsIds(s.sessions, hash, counted);
      LogBoth(s.audit, t.audit, [written], [written]);
    }
  }

  lemma MoveAlike(sys: System, swept: System, cut: Time, i: nat, x: Stage, y: Stage, s: State, t: State)
    requires Alike(sys, swept, cut) && At(sys, i)
    requires BlurStage(x) == BlurStage(y)
    requires Missing(s, t, cut) && UniqueIds(s.sessions)
    ensures Alike(Move(sys, i, x).(store := s), Move(swept, i, y).(store := t), cut)
  {
    assert SameUse(sys.uses[i], swept.uses[i], cut);
  }

  lemma AppendAlike(s: State, t: State, cut: Time, rows: seq<AuditEvent>, rows': seq<AuditEvent>)
    requires Missing(s, t, cut) && SameLog(rows, rows')
    ensures Missing(AppendAudits(s, rows), AppendAudits(t, rows'), cut)
  {
    LogBoth(s.audit, t.audit, rows, rows');
  }

  lemma CommitAlike(sys: System, swept: System, cut: Time, i: nat)
    requires Alike(sys, swept, cut) && At(sys, i)
    requires sys.uses[i].stage.Releasing? && sys.uses[i].caller.BySession?
    ensures Alike(StepUse(sys, i, CommitSession(i)), StepUse(swept, i, CommitSession(i)), cut)
  {
    var u, v := sys.uses[i], swept.uses[i];
    assert SameUse(u, v, cut);
    var row := Row(u, u.stage.agent, u.stage.decision);
    ConsumeAlike(sys.store, swept.store, cut, u.caller.hash, u.now, row);
    var (s, x) := AfterCommit(sys.store, u);
    var (t, y) := AfterCommit(swept.store, v);
    MoveAlike(sys, swept, cut, i, x, y, s, t);
  }

  lemma ReportAlike(sys: System, swept: System, cut: Time, i: nat, stored: bool)
    requires Alike(sys, swept, cut) && At(sys, i) && sys.uses[i].stage.Reporting?
    ensures Alike(StepUse(sys, i, Report(i, stored)), StepUse(swept, i, Report(i, stored)), cut)
  {
    var u, v := sys.uses[i], swept.uses[i];
    var s, t := sys.store, swept.store;
    assert SameUse(u, v, cut);
    AppendAlike(s, t, cut, [u.stage.row], [v.stage.row]);
    MoveAlike(sys, swept, cut, i, Finished(Answer(u.stage.refusal)), Finished(Answer(v.stage.refusal)),
              if stored then AppendAudits(s, [u.stage.row]) else s,
              if stored then AppendAudits(t, [v.stage.row]) else t);
  }

  lemma CommitAgentAlike(sys: System, swept: System, cut: Time, i: nat, stored: bool)
    requires Alike(sys, swept, cut) && At(sys, i)
    requires sys.uses[i].stage.Releasing? && sys.uses[i].caller.ByAgent?
    ensures Alike(StepUse(sys, i, CommitAgent(i, stored)), StepUse(swept, i, CommitAgent(i, stored)), cut)
  {
    var u, v := sys.uses[i], swept.uses[i];
    var s, t := sys.store, swept.store;
    assert SameUse(u, v, cut);
    var row := Row(u, u.stage.agent, u.stage.decision);
    AppendAlike(s, t, cut, [row], [row]);
    var next := if stored then Reading(u.stage.item.id, u.stage.decision) else Finished(AuditFailed);
    MoveAlike(sys, swept, cut, i, next, next,
              if stored then AppendAudits(s, [row]) else s, if stored then AppendAudits(t, [row]) else t);
  }

  lemma LookAlike(sys: System, swept: System, cut: Time, i: nat, a: Action)
    requires Alike(sys, swept, cut) && At(sys, i)
    requires a == TakeSnapshot(i) || a == Reload(i) || (a.Release? && a.i == i)
    ensures Alike(StepUse(sys, i, a), StepUse(swept, i, a), cut)
  {
    var u, v := sys.uses[i], swept.uses[i];
    var s, t := sys.store, swept.store;
    assert SameUse(u, v, cut);
    if a.TakeSnapshot? && u.stage.Started? {
      SameSnapshot(s, t, cut, u);
      MoveAlike(sys, swept, cut, i, AfterSnapshot(s, u), AfterSnapshot(t, v), s, t);
    } else if a.Reload? && u.stage.Reloading? {
      SameReload(s, t, cut, u, v);
      MoveAlike(sys, swept, cut, i, AfterReload(s, u), AfterReload(t, v), s, t);
    } else if a.Release? && u.stage.Reading? {
      MoveAlike(sys, swept, cut, i, AfterRelease(s, u, a.fetched), AfterRelease(t, v, a.fetched), s, t);
    }
  }

  lemma UseStepAlike(sys: System, swept: System, cut: Time, a: Action)
    requires Alike(sys, swept, cut) && IsUseStep(a) && At(sys, a.i)
    ensures Alike(StepUse(sys, a.i, a), StepUse(swept, a.i, a), cut)
  {
    var i := a.i;
    var stage := sys.uses[i].stage;
    assert SameUse(sys.uses[i], swept.uses[i], cut);
    if a.Report? {
      if stage.Reporting? {
        ReportAlike(sys, swept, cut, i, a.stored);
      }
    } else if a.CommitSession? {
      if stage.Releasing? && sys.uses[i].caller.BySession? {
        CommitAlike(sys, swept, cut, i);
      }
    } else if a.CommitAgent? {
      if stage.Releasing? && sys.uses[i].caller.ByAgent? {
        CommitAgentAlike(sys, swept, cut, i, a.stored);
      }
    } else {
      LookAlike(sys, swept, cut, i, a);
    }
  }

  lemma SameLocate(s: State, t: State, cut: Time, id: string)
    requires Missing(s, t, cut) && UniqueIds(s.sessions)
    ensures Knows(t, id) ==> Knows(s, id) && Locate(s, id) == Locate(t, id)
    ensures Knows(s, id) && !Knows(t, id) ==> Locate(s, id) !in t.sessions && Dead(s.sessions[Locate(s, id)], cut)
  {
    if Knows(t, id) {
      assert HasId(s, Locate(t, id), id);
    } else if Knows(s, id) {
      var h := Locate(s, id);
      if h in t.sessions {
        assert HasId(t, h, id);
      }
    }
  }

  lemma RenewAlike(s: State, t: State, cut: Time, id: string, at: Time)
    requires Missing(s, t, cut) && UniqueIds(s.sessions) && at >= cut
    ensures Missing(RenewSession(s, id, at).0, RenewSession(t, id, at).0, cut)
    ensures UniqueIds(RenewSession(s, id, at).0.sessions)
    ensures RenewSession(t, id, at).1.Ok? || RenewSession(s, id, at).1.Ok? ==>
              RenewSession(s, id, at).1 == RenewSession(t, id, at).1
  {
    SameLocate(s, t, cut, id);
    if Knows(s, id) && RenewSession(s, id, at).1.Ok? {
      var h := Locate(s, id);
      var renewed := RenewSession(s, id, at).1.value;
      SetBoth(s.sessions, t.sessions, cut, h, renewed);
      SetKeepsIds(s.sessions, h, renewed);
    }
  }

  lemma EndAlike(s: State, t: State, cut: Time, id: string, at: Time)
    requires Missing(s, t, cut) && UniqueIds(s.sessions)
    ensures Missing(RevokeSession(s, id, at).0, RevokeSession(t, id, at).0, cut)
    ensures UniqueIds(RevokeSession(s, id, at).0.sessions)
  {
    SameLocate(s, t, cut, id);
    if Knows(s, id) {
      var h := Locate(s, id);
      var ended := RevokeAt(s, h, at).sessions[h];
      if h in t.sessions {
        SetBoth(s.sessions, t.sessions, cut, h, ended);
      } else {
        SetDead(s.sessions, t.sessions, cut, h, ended);
      }
      SetKeepsIds(s.sessions, h, ended);
    }
  }

  lemma DeleteAlike(s: State, t: State, cut: Time, id: string)
    requires Missing(s, t, cut)
    ensures Missing(DeleteItem(s, id).0, DeleteItem(t, id).0, cut)
  {
    if id in s.shelf.items {
      var m := map k | k in s.grants && s.grants[k].itemId != id :: s.grants[k];
      var n := map k | k in t.grants && t.grants[k].itemId != id :: t.grants[k];
      assert FewerGrants(m, n, cut);
    }
  }

  lemma IssueAlike(sys: System, swept: System, cut: Time, a: Action)
    requires Alike(sys, swept, cut) && Fresh(sys, a) && a.IssueSession?
    ensures Alike(StepOwner(sys, a), StepOwner(swept, a), cut)
  {
    if a.j in sys.pending && sys.pending[a.j].NewSession? {
      var sess := Minted(sys.pending[a.j], a.id, a.now);
      SetBoth(sys.store.sessions, swept.store.sessions, cut, a.hash, sess);
      SetKeepsIds(sys.store.sessions, a.hash, sess);
    }
  }

  lemma MissingSameRest(s: State, t: State, cut: Time)
    requires Missing(s, t, cut)
    ensures SameRest(s, t)
  {
  }

  /** Writes that leave sessions, grants, approvals and the log alone. */
  lemma RestAlike(s: State, t: State, s': State, t': State, cut: Time)
    requires Missing(s, t, cut) && SameRest(s', t')
    requires s'.sessions == s.sessions && s'.grants == s.grants && s'.approvals == s.approvals && s'.audit == s.audit
    requires t'.sessions == t.sessions && t'.grants == t.grants && t'.approvals == t.approvals && t'.audit == t.audit
    ensures Missing(s', t', cut)
  {
  }

  lemma KillAlike(s: State, t: State, cut: Time, id: string, at: Time, rows: seq<AuditEvent>)
    requires Missing(s, t, cut)
    ensures Missing(RevokeAgent(s, id, at, rows).0, RevokeAgent(t, id, at, rows).0, cut)
  {
    LogBoth(s.audit, t.audit, rows, rows);
  }

  lemma RowsAlike(s: State, t: State, cut: Time, a: Action)
    requires Missing(s, t, cut)
    ensures a.RecordApproval? ==> Missing(PutApproval(s, a.approval), PutApproval(t, a.approval), cut)
    ensures a.IssueGrant? ==> forall g :: Missing(PutGrant(s, g), PutGrant(t, g), cut)
  {
    if a.IssueGrant? {
      forall g: Grant
        ensures Missing(PutGrant(s, g), PutGrant(t, g), cut)
      {
        assert FewerGrants(PutGrant(s, g).grants, PutGrant(t, g).grants, cut);
      }
    }
    if a.RecordApproval? {
      assert FewerApprovals(PutApproval(s, a.approval).approvals, PutApproval(t, a.approval).approvals, cut);
    }
  }

  lemma OwnerStepAlike(sys: System, swept: System, cut: Time, a: Action)
    requires Alike(sys, swept, cut) && Timely(a, cut) && Fresh(sys, a)
    requires !IsUseStep(a) && !a.Start?
    ensures Alike(StepOwner(sys, a), StepOwner(swept, a), cut)
  {
    var s, t := sys.store, swept.store;
    if a.IssueSession? {
      IssueAlike(sys, swept, cut, a);
    } else if a.Renew? {
      RenewAlike(s, t, cut, a.id, a.at);
    } else if a.EndSession? {
      EndAlike(s, t, cut, a.id, a.at);
    } else if a.CheckSessionRequest? || a.CheckGrantRequest? {
      CheckAlike(sys, swept, cut, a);
    } else if a.AddAgent? || a.StoreItem? || a.HideItem? || a.RestoreItem? {
      RestStepAlike(sys, swept, cut, a);
    } else {
      QuietStepAlike(sys, swept, cut, a);
    }
  }

  /** The checks look only at what a sweep leaves alone. */
  lemma CheckAlike(sys: System, swept: System, cut: Time, a: Action)
    requires Alike(sys, swept, cut) && (a.CheckSessionRequest? || a.CheckGrantRequest?)
    ensures Alike(StepOwner(sys, a), StepOwner(swept, a), cut)
  {
    MissingSameRest(sys.store, swept.store, cut);
    hide Missing, UniqueIds, SameUse;
  }

  /** Steps that write agents or items, which a sweep leaves alone. */
  lemma RestStepAlike(sys: System, swept: System, cut: Time, a: Action)
    requires Alike(sys, swept, cut)
    requires a.AddAgent? || a.StoreItem? || a.HideItem? || a.RestoreItem?
    ensures Alike(StepOwner(sys, a), StepOwner(swept, a), cut)
  {
    hide Missing, UniqueIds, SameUse, PutItem, ArchiveItem, RestoreVersion;
    MissingSameRest(sys.store, swept.store, cut);
    RestAlike(sys.store, swept.store, StepOwner(sys, a).store, StepOwner(swept, a).store, cut);
  }

  /** The owner's steps that leave the sessions' ids as they are. */
  lemma QuietStepAlike(sys: System, swept: System, cut: Time, a: Action)
    requires Alike(sys, swept, cut)
    requires !IsUseStep(a) && !a.Start? && !a.IssueSession? && !a.Renew? && !a.EndSession?
    requires !a.CheckSessionRequest? && !a.CheckGrantRequest?
    requires !a.AddAgent? && !a.StoreItem? && !a.HideItem? && !a.RestoreItem?
    ensures Alike(StepOwner(sys, a), StepOwner(swept, a), cut)
  {
    hide Missing, SameUse, RevokeAgent, DeleteItem;
    var s, t := sys.store, swept.store;
    match a
    case KillAgent(id, at, rows) =>
      KillAlike(s, t, cut, id, at, rows);
      KillKeepsSessions(s, id, at, rows);
    case LogRows(rows) => AppendAlike(s, t, cut, rows, rows);
    case DropItem(id) =>
      DeleteAlike(s, t, cut, id);
      DeleteKeepsSessions(s, id);
    case SweepRows(again) => SweepBoth(s, t, cut, again);
    case RecordApproval(_) => RowsAlike(s, t, cut, a);
    case IssueGrant(_) => RowsAlike(s, t, cut, a);
  }

  lemma KillKeepsSessions(s: State, id: string, at: Time, rows: seq<AuditEvent>)
    ensures RevokeAgent(s, id, at, rows).0.sessions == s.sessions
  {
  }

  lemma DeleteKeepsSessions(s: State, id: string)
    ensures DeleteItem(s, id).0.sessions == s.sessions
  {
  }

  lemma StepAlike(sys: System, swept: System, cut: Time, a: Action)
    requires Alike(sys, swept, cut) && Timely(a, cut) && Fresh(sys, a)
    ensures Alike(Step(sys, a), Step(swept, a), cut)
  {
    if a.Start? {
    } else if IsUseStep(a) {
      if At(sys, a.i) {
        UseStepAlike(sys, swept, cut, a);
      }
    } else {
      OwnerStepAlike(sys, swept, cut, a);
    }
  }

  // ---- whole runs ----

  ghost predicate FreshRun(sys: System, run: seq<Action>) {
    forall k :: 0 <= k < |run| ==> Fresh(Before(sys, run, k), run[k])
  }

  lemma {:induction false} RunAlike(sys: System, swept: System, cut: Time, run: seq<Action>)
    requires Alike(sys, swept, cut)
    requires forall k :: 0 <= k < |run| ==> Timely(run[k], cut)
    requires FreshRun(sys, run)
    ensures Alike(After(sys, run), After(swept, run), cut)
  {
    if run != [] {
      var n := |run| - 1;
      var shorter := run[..n];
      forall k | 0 <= k < n
        ensures Fresh(Before(sys, shorter, k), shorter[k])
      {
        assert shorter[..k] == run[..k];
        assert Fresh(Before(sys, run, k), run[k]);
      }
      RunAlike(sys, swept, cut, shorter);
      assert Fresh(Before(sys, run, n), run[n]);
      StepAlike(After(sys, shorter), After(swept, shorter), cut, run[n]);
    }
  }

  /** Whatever rows dead by the cutoff are missing, be it after a sweep that stopped half-way, no later run can tell. */
  lemma MissingIsUnobservable(sys: System, swept: State, cut: Time, run: seq<Action>)
    requires Missing(sys.store, swept, cut) && UniqueIds(sys.store.sessions)
    requires forall i :: i in sys.uses ==> sys.uses[i].now >= cut
    requires forall k :: 0 <= k < |run| ==> Timely(run[k], cut)
    requires FreshRun(sys, run)
    ensures Alike(After(sys, run), After(sys.(store := swept), run), cut)
  {
    RunAlike(sys, sys.(store := swept), cut, run);
  }

  lemma SweepIsMissing(s: State, cut: Time)
    ensures Missing(s, Sweep(s, cut), cut)
  {
  }

  /** The swept system and the unswept one stay alike over every later run. */
  lemma SweepIsUnobservable(sys: System, cut: Time, run: seq<Action>)
    requires UniqueIds(sys.store.sessions)
    requires forall i :: i in sys.uses ==> sys.uses[i].now >= cut
    requires forall k :: 0 <= k < |run| ==> Timely(run[k], cut)
    requires FreshRun(sys, run)
    ensures Alike(After(sys, run), After(sys.(store := Sweep(sys.store, cut)), run), cut)
  {
    hide Missing, Alike, Sweep, UniqueIds, Timely, FreshRun;
    SweepIsMissing(sys.store, cut);
    MissingIsUnobservable(sys, Sweep(sys.store, cut), cut, run);
  }

  /** In a caller's terms: each call ends the same way on both, and the same allow rows are on the log. */
  lemma SameAnswers(sys: System, cut: Time, run: seq<Action>, i: nat)
    requires UniqueIds(sys.store.sessions)
    requires forall i :: i in sys.uses ==> sys.uses[i].now >= cut
    requires forall k :: 0 <= k < |run| ==> Timely(run[k], cut)
    requires FreshRun(sys, run)
    requires At(After(sys, run), i) && After(sys, run).uses[i].stage.Finished?
    ensures var swept := After(sys.(store := Sweep(sys.store, cut)), run);
            var x := After(sys, run).uses[i].stage.outcome;
            && At(swept, i) && swept.uses[i].stage.Finished?
            && (var y := swept.uses[i].stage.outcome;
                x == y || (x.Answer? && y.Answer? && x.result.decision == y.result.decision == Deny))
    ensures forall n :: 0 <= n < |After(sys, run).store.audit| ==>
              var x := After(sys, run).store.audit[n];
              var log := After(sys.(store := Sweep(sys.store, cut)), run).store.audit;
              n < |log| && (x == log[n] || x.decision == log[n].decision == Deny)
  {
    SweepIsUnobservable(sys, cut, run);
    var full, swept := After(sys, run), After(sys.(store := Sweep(sys.store, cut)), run);
    assert SameUse(full.uses[i], swept.uses[i], cut);
    forall n | 0 <= n < |full.store.audit|
      ensures n < |swept.store.audit|
      ensures full.store.audit[n] == swept.store.audit[n]
              || full.store.audit[n].decision == swept.store.audit[n].decision == Deny
    {
      assert BlurRow(full.store.audit[n]) == BlurRow(swept.store.audit[n]);
    }
  }

  // ---- where it is observable ----

  /** A call whose clock reading is older than the last instant before the cutoff can tell. */
  lemma StaleClockSeesSweep(cut: Time, now: Time)
    requires now + 1 < cut
    ensures var p := Principal(Agent, "claude", "org", Owner("user", "self"), None);
            var sess := Session("s1", "org", "claude", now, now + 1, None, None, 0, 0, 0, 0);
            var s := PutSession(PutAgent(EMPTY, p), sess, "h");
            var u := Use(BySession("h"), Request("item", Fetch, None), now, Started);
            && BlurStage(AfterSnapshot(s, u)) != Finished(Unauthorized)
            && BlurStage(AfterSnapshot(Sweep(s, cut), u)) == Finished(Unauthorized)
  {
    var sess := Session("s1", "org", "claude", now, now + 1, None, None, 0, 0, 0, 0);
    assert SessionSwept(sess, cut);
  }

  ghost predicate SnapshotsAgree(cut: Time, now: Time) {
    forall s: State, u: Use :: u.now == now ==>
      BlurStage(AfterSnapshot(s, u)) == BlurStage(AfterSnapshot(Sweep(s, cut), u))
  }

  /**
   The exact bound on the clock: a sweep is invisible to every snapshot on every store from one instant before
   the cutoff on.
   */
  lemma SnapshotsAgreeIff(cut: Time, now: Time)
    ensures SnapshotsAgree(cut, now) <==> now + 1 >= cut
  {
    hide AfterSnapshot, BlurStage, Missing, Sweep;
    if now + 1 >= cut {
      forall s: State, u: Use | u.now == now
        ensures BlurStage(AfterSnapshot(s, u)) == BlurStage(AfterSnapshot(Sweep(s, cut), u))
      {
        SweepIsMissing(s, cut);
        SameSnapshot(s, Sweep(s, cut), cut, u);
      }
    } else {
      StaleClockSeesSweep(cut, now);
      var p := Principal(Agent, "claude", "org", Owner("user", "self"), None);
      var sess := Session("s1", "org", "claude", now, now + 1, None, None, 0, 0, 0, 0);
      var s := PutSession(PutAgent(EMPTY, p), sess, "h");
      var u := Use(BySession("h"), Request("item", Fetch, None), now, Started);
      assert BlurStage(AfterSnapshot(s, u)) != BlurStage(AfterSnapshot(Sweep(s, cut), u));
    }
  }

  predicate HasGrantId(s: State, k: (string, string), grantId: string) {
    k in s.grants && s.grants[k].id == grantId
  }

  ghost predicate GrantExists(s: State, grantId: string) {
    exists k :: HasGrantId(s, k, grantId)
  }

  /** The owner's approval: the grant must be found first, then the approval is recorded. */
  ghost function Approve(s: State, a: Approval): (State, Result<(), StoreError>) {
    if GrantExists(s, a.grantId) then (PutApproval(s, a), Ok(())) else (s, Err(NotFound))
  }

  /** Approving does see a sweep, exactly when the sweep took every grant with that id. */
  lemma ApproveSeesSweepIff(s: State, cut: Time, a: Approval)
    ensures Approve(s, a).1 != Approve(Sweep(s, cut), a).1 <==>
            GrantExists(s, a.grantId) &&
            forall k :: HasGrantId(s, k, a.grantId) ==> GrantSwept(s.grants[k], cut)
  {
    var t := Sweep(s, cut);
    forall k
      ensures HasGrantId(t, k, a.grantId) <==> HasGrantId(s, k, a.grantId) && !GrantSwept(s.grants[k], cut)
    {
    }
    if GrantExists(t, a.grantId) {
      var k :| HasGrantId(t, k, a.grantId);
      assert HasGrantId(s, k, a.grantId);
    } else {
      assert forall k :: HasGrantId(s, k, a.grantId) ==> !HasGrantId(t, k, a.grantId);
    }
  }

  /**
   And the difference can reach a Use: approve an expired grant, then grant again under
   the same id. Unswept, the approval was recorded and the call is allowed; swept, it was not.
   */
  lemma ApprovalLostToSweep()
    ensures var p := Principal(Agent, "claude", "org", Owner("user", "self"), None);
            var url := Parsed("https", "api", "");
            var item := Item("pat", "org", ApiKey, [url], false, false);
            var g := Grant("claude:pat", "org", "claude", "pat", Level1, [Fetch], Some(1));
            var again := g.(expiresAt := None);
            var appr := Approval("a1", "claude:pat", "self", 100);
            var s := PutGrant(PutAgent(EMPTY, p).(shelf := PutItem(EMPTY_SHELF, item, "k")), g);
            var u := Use(ByAgent(p), Request("pat", Fetch, Some(url)), 50, Started);
            && AfterSnapshot(PutGrant(Approve(s, appr).0, again), u)
               == Reloading(p, item, UseResult(Allow, "", "a1"))
            && AfterSnapshot(PutGrant(Approve(Sweep(s, 10), appr).0, again), u)
               == Reloading(p, item, UseResult(NeedApproval, "need_approval", ""))
  {
    var p := Principal(Agent, "claude", "org", Owner("user", "self"), None);
    var url := Parsed("https", "api", "");
    var item := Item("pat", "org", ApiKey, [url], false, false);
    var g := Grant("claude:pat", "org", "claude", "pat", Level1, [Fetch], Some(1));
    var again := g.(expiresAt := None);
    var appr := Approval("a1", "claude:pat", "self", 100);
    var s := PutGrant(PutAgent(EMPTY, p).(shelf := PutItem(EMPTY_SHELF, item, "k")), g);
    assert HasGrantId(s, ("claude", "pat"), "claude:pat");
    forall k
      ensures !HasGrantId(Sweep(s, 10), k, "claude:pat")
    {
    }
    assert url in item.uris && CanonicalHost(url) == "api" by {
      assert Lower("api") == "api";
      assert Lower("https") == "https";
    }
    assert HostAllowed(item, url);
    EvaluateMeans(Input(p, item, Some(again), Fetch, url, Some(appr), 50));
    EvaluateMeans(Input(p, item, Some(again), Fetch, url, None, 50));
  }
}
