/**
 The broker's own code: one Use from its snapshot to its answer, written as the
 sequence of store calls it is, and proved to be a run of the protocol in `Broker`.
 `stored` is whether the audit write succeeds, `fetched` whether the upstream call does.
 */
module Server {
  import opened Protocol
  import opened Grants
  import opened Stores
  import opened Broker
  import opened MemoryStore
  import opened UseSafety

  function Only(s: State, u: Use): System {
    System(s, map[0 := u], map[])
  }

  /** What the protocol makes of one call when nothing else runs: its steps in the only order they can be due. */
  ghost function Alone(s: State, u: Use, stored: bool, fetched: bool): System {
    Ending(Step(Step(Only(s, u), TakeSnapshot(0)), Reload(0)), stored, fetched)
  }

  ghost function Ending(sys: System, stored: bool, fetched: bool): System {
    Step(Step(Step(Step(sys, CommitSession(0)), CommitAgent(0, stored)), Release(0, fetched)), Report(0, stored))
  }

  /** The stage-by-stage reading of `Alone`. */
  function Finish(s: State, u: Use, stored: bool): (State, Outcome)
    requires u.stage.Finished? || u.stage.Reporting?
  {
    if u.stage.Finished? then (s, u.stage.outcome)
    else (if stored then AppendAudits(s, [u.stage.row]) else s, Answer(u.stage.refusal))
  }

  function Settle(s: State, u: Use, stored: bool, fetched: bool): (State, Outcome)
    requires !u.stage.Started? && !u.stage.Reloading?
  {
    match u.stage
    case Releasing(agent, item, decision) =>
      if u.caller.BySession? then
        var (t, stage) := AfterCommit(s, u);
        if stage.Reading? then Finish(t, u.(stage := AfterRelease(t, u.(stage := stage), fetched)), stored)
        else Finish(t, u.(stage := stage), stored)
      else if stored then
        var t := AppendAudits(s, [Row(u, agent, decision)]);
        Finish(t, u.(stage := AfterRelease(t, u.(stage := Reading(item.id, decision)), fetched)), stored)
      else (s, AuditFailed)
    case Reading(_, _) => Finish(s, u.(stage := AfterRelease(s, u, fetched)), stored)
    case Reporting(_, _) => Finish(s, u, stored)
    case Finished(_) => Finish(s, u, stored)
  }

  function Play(s: State, u: Use, stored: bool, fetched: bool): (State, Outcome)
    requires u.stage.Started?
  {
    var v := u.(stage := AfterSnapshot(s, u));
    var w := if v.stage.Reloading? then v.(stage := AfterReload(s, v)) else v;
    Settle(s, w, stored, fetched)
  }

  lemma SettleIsRun(s: State, u: Use, stored: bool, fetched: bool)
    requires !u.stage.Started? && !u.stage.Reloading?
    ensures var (t, out) := Settle(s, u, stored, fetched);
            Ending(Only(s, u), stored, fetched)
            == Only(t, u.(stage := Finished(out)))
  {
    hide StepOwner, Consume, Evaluate, Authorization;
  }

  lemma PlayIsRun(s: State, u: Use, stored: bool, fetched: bool)
    requires u.stage.Started?
    ensures var (t, out) := Play(s, u, stored, fetched);
            Alone(s, u, stored, fetched) == Only(t, u.(stage := Finished(out)))
  {
    hide StepOwner, Settle, Ending, Evaluate, Authorization, SessionAuthorization;
    var v := u.(stage := AfterSnapshot(s, u));
    var w := if v.stage.Reloading? then v.(stage := AfterReload(s, v)) else v;
    assert Step(Only(s, u), TakeSnapshot(0)) == Only(s, v);
    assert Step(Only(s, v), Reload(0)) == Only(s, w);
    SettleIsRun(s, w, stored, fetched);
  }

  /** What the reload leaves of a decision on a store that has not changed: an agent revoked under its own id is refused. */
  predicate StillStanding(s: State, u: Use) {
    var who := Acting(s, u);
    who.Some? && (u.caller.ByAgent? ==> !Revoked(s, who.value.0.id))
  }

  lemma SnapshotStage(s: State, u: Use)
    requires u.stage.Started? && u.request.action == Fetch && u.request.fetch.Some?
    ensures Authorized(s, u) ==>
              var (agent, auth) := SnapshotOf(s, u).value;
              var st := AfterSnapshot(s, u);
              if u.caller.ByAgent? then
                st.Reloading? && st.agent == agent && st.item == auth.item && st.decision.decision == Allow
              else if ForInjection(auth.item.kind) then
                st.Releasing? && st.agent == agent && st.item == auth.item && st.decision.decision == Allow
              else st.Reporting? && st.refusal == Refuse("not_injectable")
    ensures !Authorized(s, u) ==>
              var st := AfterSnapshot(s, u);
              || st == Finished(Unauthorized)
              || (st.Reporting? && st.refusal.decision != Allow)
              || (st.Reloading? && st.decision.decision != Allow)
  {
    hide Evaluate, Authorization, SessionAuthorization;
  }

  lemma OtherActionStage(s: State, u: Use)
    requires u.stage.Started? && !(u.request.action == Fetch && u.request.fetch.Some?)
    ensures var st := AfterSnapshot(s, u);
            || st == Finished(Unauthorized)
            || (st.Reporting? && st.refusal.decision != Allow)
            || st.Reloading?
  {
    hide Evaluate, Authorization, SessionAuthorization;
  }

  predicate Allowed(out: Outcome) {
    out.Answer? && out.result.decision == Allow
  }

  lemma ReloadStage(s: State, u: Use)
    requires u.stage.Reloading? && u.caller.ByAgent?
    ensures var st := AfterReload(s, u);
            var live := u.stage.agent.id in s.agents;
            var revoked := if live then s.agents[u.stage.agent.id].revokedAt.Some? else u.stage.agent.revokedAt.Some?;
            if u.stage.decision.decision == Allow && !revoked && ForInjection(u.stage.item.kind) &&
               u.request.action == Fetch && u.request.fetch.Some?
            then st.Releasing? && st.item == u.stage.item && st.decision == u.stage.decision
            else st.Reporting? && st.refusal.decision != Allow
  {
  }

  lemma ReleaseStage(s: State, u: Use)
    requires u.stage.Releasing? && u.stage.decision.decision == Allow
    ensures Allowed(Settle(s, u, true, true).1) <==>
            && u.stage.item.id in s.shelf.secrets
            && (u.caller.BySession? ==>
                  Consume(s, u.caller.hash, u.now, Row(u, u.stage.agent, u.stage.decision)).1.Ok?)
  {
    hide CheckSession;
  }

  /** A call that is refused, or answered with a blank refusal, is not allowed in the end. */
  lemma RefusedStage(s: State, u: Use)
    requires u.stage == Finished(Unauthorized) || (u.stage.Reporting? && u.stage.refusal.decision != Allow)
    ensures !Allowed(Settle(s, u, true, true).1)
  {
  }

  lemma ConsumeOkIff(s: State, hash: Hash, now: Time, row: AuditEvent)
    ensures Consume(s, hash, now, row).1.Ok? <==>
            && CheckSession(s, hash, now).Ok? && s.sessions[hash].agentId in s.agents
            && s.agents[s.sessions[hash].agentId].revokedAt.None?
  {
  }

  lemma SessionAllowedIff(s: State, u: Use)
    requires u.stage.Started? && u.caller.BySession? && u.request.action == Fetch && u.request.fetch.Some?
    ensures Allowed(Play(s, u, true, true).1) <==>
            && Authorized(s, u)
            && ForInjection(SnapshotOf(s, u).value.1.item.kind)
            && SnapshotOf(s, u).value.1.item.id in s.shelf.secrets
  {
    hide Evaluate, HostAllowed, AfterSnapshot, AfterReload, Settle, Consume, ForInjection, Allowed;
    SnapshotStage(s, u);
    var v := u.(stage := AfterSnapshot(s, u));
    if Authorized(s, u) {
      AuthorizedMeans(s, u);
      if v.stage.Releasing? {
        ReleaseStage(s, v);
        ConsumeOkIff(s, u.caller.hash, u.now, Row(v, v.stage.agent, v.stage.decision));
      } else {
        RefusedStage(s, v);
      }
    } else {
      SessionNeverReloads(s, u);
      RefusedStage(s, v);
    }
  }

  lemma SessionNeverReloads(s: State, u: Use)
    requires u.stage.Started? && u.caller.BySession?
    ensures !AfterSnapshot(s, u).Reloading?
  {
    hide Evaluate, Authorization, SessionAuthorization;
  }

  lemma AgentAllowedIff(s: State, u: Use)
    requires u.stage.Started? && u.caller.ByAgent? && u.request.action == Fetch && u.request.fetch.Some?
    ensures Allowed(Play(s, u, true, true).1) <==>
            && Authorized(s, u)
            && !Revoked(s, SnapshotOf(s, u).value.0.id)
            && ForInjection(SnapshotOf(s, u).value.1.item.kind)
            && SnapshotOf(s, u).value.1.item.id in s.shelf.secrets
  {
    hide Evaluate, HostAllowed, AfterSnapshot, AfterReload, Settle, ForInjection, Allowed, SnapshotOf, Authorized;
    SnapshotStage(s, u);
    var v := u.(stage := AfterSnapshot(s, u));
    if v.stage.Reloading? {
      ReloadStage(s, v);
      var w := v.(stage := AfterReload(s, v));
      if w.stage.Releasing? {
        ReleaseStage(s, w);
      } else {
        RefusedStage(s, w);
      }
      if Authorized(s, u) {
        AuthorizedMeans(s, u);
      }
    } else {
      RefusedStage(s, v);
    }
  }

  lemma OtherActionIsRefused(s: State, u: Use)
    requires u.stage.Started? && !(u.request.action == Fetch && u.request.fetch.Some?)
    ensures !Allowed(Play(s, u, true, true).1)
  {
    hide Evaluate, AfterSnapshot, AfterReload, Settle, Allowed, SnapshotOf, Authorized;
    OtherActionStage(s, u);
    var v := u.(stage := AfterSnapshot(s, u));
    if v.stage.Reloading? {
      OnlyAgentsReload(s, u);
      ReloadStage(s, v);
      RefusedStage(s, v.(stage := AfterReload(s, v)));
    } else {
      RefusedStage(s, v);
    }
  }

  lemma OnlyAgentsReload(s: State, u: Use)
    requires u.stage.Started? && AfterSnapshot(s, u).Reloading?
    ensures u.caller.ByAgent?
  {
    if u.caller.BySession? {
      SessionNeverReloads(s, u);
    }
  }

  lemma SnapshotIsActing(s: State, u: Use)
    requires Authorized(s, u)
    ensures Acting(s, u).Some? && Acting(s, u).value.0 == SnapshotOf(s, u).value.0
    ensures u.request.itemId in s.shelf.items && SnapshotOf(s, u).value.1.item == s.shelf.items[u.request.itemId]
  {
    AuthorizedMeans(s, u);
    hide Evaluate, HostAllowed;
  }

  /**
   When a call is allowed on a store that does not change under it: exactly when the rows permit the fetch, the
   item is of a kind for injection, its secret is stored, and the reload finds the agent standing.
   */
  lemma AllowedIff(s: State, u: Use)
    requires u.stage.Started?
    ensures Allowed(Play(s, u, true, true).1) <==>
            && u.request.action == Fetch && u.request.fetch.Some?
            && StillStanding(s, u)
            && Permitted(s, Acting(s, u).value.0, Acting(s, u).value.1, u.request.itemId, u.request.fetch.value, u.now)
            && ForInjection(s.shelf.items[u.request.itemId].kind)
            && s.shelf.items[u.request.itemId].id in s.shelf.secrets
  {
    hide Play, Permitted, Authorized, SnapshotOf, Acting, Allowed, ForInjection;
    if u.request.action == Fetch && u.request.fetch.Some? {
      AuthorizedIff(s, u);
      if Authorized(s, u) {
        SnapshotIsActing(s, u);
      }
      if u.caller.ByAgent? {
        AgentAllowedIff(s, u);
      } else {
        SessionAllowedIff(s, u);
      }
    } else {
      OtherActionIsRefused(s, u);
    }
  }

  /** Which of the broker's own refusals a snapshot ends in, and when. */
  lemma SnapshotRefusalsIff(s: State, u: Use)
    requires u.stage.Started?
    ensures AfterSnapshot(s, u) == Finished(Unauthorized) <==> Acting(s, u).None?
    ensures Acting(s, u).Some? ==>
              var missing := u.request.itemId !in s.shelf.items || s.shelf.items[u.request.itemId].id == "";
              var st := AfterSnapshot(s, u);
              (st.Reporting? && st.refusal == Refuse("item_not_found")) <==> missing
  {
    hide Evaluate;
    EvaluateNeverMisses();
  }

  lemma EvaluateNeverMisses()
    ensures forall input :: Evaluate(input).reason != "item_not_found"
  {
    forall input
      ensures Evaluate(input).reason != "item_not_found"
    {
      BadTargetIsRefused(input.item, input.target);
      hide HostRefusal;
    }
  }

  /** The gates after the decision: what they let through, and which refusal each of them gives. */
  lemma GatesIff(u: Use, agent: Principal, item: Item, decision: UseResult)
    ensures var st, fetches := Gates(u, agent, item, decision), u.request.action == Fetch && u.request.fetch.Some?;
            if decision.decision != Allow then st == Refusing(u, agent, decision)
            else if !ForInjection(item.kind) then st == Refusing(u, agent, Refuse("not_injectable"))
            else if !fetches then st == Refusing(u, agent, Refuse("unsupported_action"))
            else st == Releasing(agent, item, decision)
  {
  }

  /** A session's commit goes on to the secret, or leaves the store alone and is refused as a session that was revoked. */
  lemma CommitIff(s: State, u: Use)
    requires u.stage.Releasing? && u.caller.BySession?
    ensures var (t, st) := AfterCommit(s, u);
            if Consume(s, u.caller.hash, u.now, Row(u, u.stage.agent, u.stage.decision)).1.Ok?
            then st == Reading(u.stage.item.id, u.stage.decision)
            else
              && t == s && st.Reporting? && st.refusal == UseResult(Deny, "session_revoked", "")
              && st.row.agentId == u.stage.agent.id && st.row.decision == Deny && st.row.reason == "session_revoked"
  {
  }

  /** How a call that reached the secret ends. */
  lemma ReleaseIff(s: State, u: Use, fetched: bool)
    requires u.stage.Reading?
    ensures var st, there := AfterRelease(s, u, fetched), u.stage.itemId in s.shelf.secrets;
            && (st == Finished(SecretMissing) <==> !there)
            && (st == Finished(FetchFailed) <==> there && !fetched)
            && (st == Finished(Answer(u.stage.decision)) <==> there && fetched)
  {
  }

  class Origin {
    const store: Memory

    constructor (store: Memory)
      ensures this.store == store
    {
      this.store := store;
    }

    /** The agent-token path. */
    method Use(agent: Principal, request: Request, now: Time, stored: bool, fetched: bool) returns (out: Outcome)
      modifies store
      ensures var u := Broker.Use(ByAgent(agent), request, now, Started);
              Alone(old(store.Contents()), u, stored, fetched)
              == Only(store.Contents(), u.(stage := Finished(out)))
    {
      ghost var u := Broker.Use(ByAgent(agent), request, now, Started);
      PlayIsRun(store.Contents(), u, stored, fetched);
      var auth := store.UseAuth(agent.id, request.itemId, now);
      out := UseAuthorized(ByAgent(agent), agent, request, auth, now, stored, fetched);
    }

    /** The session-token path: any refusal at the snapshot is the same blank one. */
    method UseSession(hash: Hash, request: Request, now: Time, stored: bool, fetched: bool) returns (out: Outcome)
      modifies store
      ensures var u := Broker.Use(BySession(hash), request, now, Started);
              Alone(old(store.Contents()), u, stored, fetched)
              == Only(store.Contents(), u.(stage := Finished(out)))
    {
      ghost var u := Broker.Use(BySession(hash), request, now, Started);
      PlayIsRun(store.Contents(), u, stored, fetched);
      var auth := store.UseAuthSession(hash, request.itemId, now);
      if auth.Err? || auth.value.agent.id == "" {
        return Unauthorized;
      }
      out := UseAuthorized(BySession(hash), auth.value.agent, request, auth.value, now, stored, fetched);
    }

    method UseAuthorized(caller: Caller, claimed: Principal, request: Request, auth: UseAuth, now: Time,
                         stored: bool, fetched: bool)
      returns (out: Outcome)
      modifies store
      ensures var u := Broker.Use(caller, request, now, Started);
              var v := u.(stage := Decide(u, claimed, auth));
              var s := old(store.Contents());
              var w := if v.stage.Reloading? then v.(stage := AfterReload(s, v)) else v;
              (store.Contents(), out) == Settle(s, w, stored, fetched)
    {
      ghost var u := Broker.Use(caller, request, now, Started);
      var agent := claimed;
      if auth.agent.id != "" {
        agent := auth.agent;
      }
      if auth.item.id == "" {
        out := AuditRefusal(u, agent, Refuse("item_not_found"), request, now, stored);
        return;
      }
      var item := auth.item;
      var input := Input(agent, item, auth.grant, request.action, Target(request), auth.approval, now);
      var decision := Evaluate(input);
      if caller.ByAgent? {
        var current := store.Agent(agent.id);
        if current.Ok? {
          agent := current.value;
        }
        if agent.revokedAt.Some? {
          decision := Refuse("agent_revoked");
        }
      }
      if decision.decision != Allow {
        out := AuditRefusal(u, agent, decision, request, now, stored);
        return;
      }
      if !item.kind.Injects() {
        out := AuditRefusal(u, agent, Refuse("not_injectable"), request, now, stored);
        return;
      }
      if request.action != Fetch || request.fetch.None? {
        out := AuditRefusal(u, agent, Refuse("unsupported_action"), request, now, stored);
        return;
      }
      var row := AuditEvent(now, agent.orgId, agent.id, request.itemId, request.action,
                            decision.decision, decision.reason, decision.approvalId);
      if caller.BySession? {
        var consumed := store.ConsumeSessionAudited(caller.hash, now, row);
        if consumed.Err? {
          out := AuditRefusal(u, agent, Refuse("session_revoked"), request, now, stored);
          return;
        }
      } else {
        if !stored {
          return AuditFailed;
        }
        store.AppendAudits([row]);
      }
      var secret := store.Secret(item.id);
      if secret.Err? {
        return SecretMissing;
      }
      if !fetched {
        return FetchFailed;
      }
      return Answer(decision);
    }

    /** Files the refusal's row, if that write succeeds, and answers either way. */
    method AuditRefusal(ghost u: Broker.Use, agent: Principal, refusal: UseResult, request: Request, now: Time, stored: bool)
      returns (out: Outcome)
      requires u.request == request && u.now == now
      modifies store
      ensures (store.Contents(), out) ==
              Finish(old(store.Contents()), u.(stage := Refusing(u, agent, refusal)), stored)
    {
      if stored {
        store.AppendAudits([AuditEvent(now, agent.orgId, agent.id, request.itemId, request.action,
                                       refusal.decision, refusal.reason, refusal.approvalId)]);
      }
      return Answer(refusal);
    }
  }
}
