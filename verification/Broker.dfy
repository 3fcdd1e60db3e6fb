/**
 Use as a protocol. Many Use calls run at once over one store, together with the
 owner's calls, and interleave at every store call. A `System` is the store, the
 calls in flight and the owner's half-finished check-then-write calls; `Step`
 takes one of its atomic steps.
 */
module Broker {
  import opened Protocol
  import opened Grants
  import opened Stores

  datatype Caller = ByAgent(principal: Principal) | BySession(hash: Hash)

  datatype Request = Request(itemId: string, action: ActionKind, fetch: Option<RawUrl>)

  datatype Outcome = Answer(result: UseResult) | Unauthorized | AuditFailed | SecretMissing | FetchFailed

  /** Where a Use call stands between two of its store calls. */
  datatype Stage =
    | Started
    | Reloading(agent: Principal, item: Item, decision: UseResult)
    | Reporting(row: AuditEvent, refusal: UseResult)
    | Releasing(agent: Principal, item: Item, decision: UseResult)
    | Reading(itemId: string, decision: UseResult)
    | Finished(outcome: Outcome)

  datatype Use = Use(caller: Caller, request: Request, now: Time, stage: Stage)

  /** What an owner's call still has to write, its checks done. */
  datatype Pending =
    | NewSession(orgId: string, agentId: string, ttl: int, maxUses: int)
    | NewGrant(grant: Grant)

  datatype System = System(store: State, uses: map<nat, Use>, pending: map<nat, Pending>)

  datatype Action =
    | Start(i: nat, caller: Caller, request: Request, now: Time)
    | TakeSnapshot(i: nat)
    | Reload(i: nat)
    | Report(i: nat, stored: bool)
    | CommitSession(i: nat)
    | CommitAgent(i: nat, stored: bool)
    | Release(i: nat, fetched: bool)
    | CheckSessionRequest(j: nat, owns: bool, orgId: string, agentId: string, ttl: int, maxUses: int)
    | IssueSession(j: nat, id: string, hash: Hash, now: Time)
    | CheckGrantRequest(j: nat, owner: string, member: bool, grant: Grant)
    | IssueGrant(j: nat)
    | AddAgent(p: Principal)
    | KillAgent(id: string, at: Time, rows: seq<AuditEvent>)
    | StoreItem(item: Item, secret: Secret)
    | HideItem(id: string)
    | DropItem(id: string)
    | RestoreItem(id: string, version: int)
    | RecordApproval(approval: Approval)
    | Renew(id: string, at: Time)
    | EndSession(id: string, at: Time)
    | SweepRows(cut: Time)
    | LogRows(rows: seq<AuditEvent>)

  // ---- the Use protocol, one store call at a time ----

  function Row(u: Use, agent: Principal, result: UseResult): AuditEvent {
    AuditEvent(u.now, agent.orgId, agent.id, u.request.itemId, u.request.action,
               result.decision, result.reason, result.approvalId)
  }

  function Refusing(u: Use, agent: Principal, result: UseResult): Stage {
    Reporting(Row(u, agent, result), result)
  }

  /** The checks between the decision and the commit. */
  function Gates(u: Use, agent: Principal, item: Item, decision: UseResult): Stage {
    if decision.decision != Allow then Refusing(u, agent, decision)
    else if !item.kind.Injects() then Refusing(u, agent, Refuse("not_injectable"))
    else if u.request.action != Fetch || u.request.fetch.None? then Refusing(u, agent, Refuse("unsupported_action"))
    else Releasing(agent, item, decision)
  }

  function Target(request: Request): RawUrl {
    if request.fetch.Some? then request.fetch.value else Blank
  }

  /** The snapshot's agent wins over the caller's own claim, when the store knows one. */
  function Decide(u: Use, claimed: Principal, auth: UseAuth): Stage {
    var agent := if auth.agent.id != "" then auth.agent else claimed;
    if auth.item.id == "" then Refusing(u, agent, Refuse("item_not_found"))
    else
      var input := Input(agent, auth.item, auth.grant, u.request.action, Target(u.request), auth.approval, u.now);
      var decision := Evaluate(input);
      if u.caller.ByAgent? then Reloading(agent, auth.item, decision)
      else Gates(u, agent, auth.item, decision)
  }

  function AfterSnapshot(s: State, u: Use): Stage {
    match u.caller
    case ByAgent(p) => Decide(u, p, Authorization(s, p.id, u.request.itemId, u.now))
    case BySession(hash) =>
      match SessionAuthorization(s, hash, u.request.itemId, u.now)
      case Err(_) => Finished(Unauthorized)
      case Ok(auth) =>
        if auth.agent.id == "" then Finished(Unauthorized) else Decide(u, auth.agent, auth)
  }

  function AfterReload(s: State, u: Use): Stage
    requires u.stage.Reloading?
  {
    var agent := if u.stage.agent.id in s.agents then s.agents[u.stage.agent.id] else u.stage.agent;
    var decision := if agent.revokedAt.Some? then Refuse("agent_revoked") else u.stage.decision;
    Gates(u, agent, u.stage.item, decision)
  }

  function AfterCommit(s: State, u: Use): (State, Stage)
    requires u.stage.Releasing? && u.caller.BySession?
  {
    var row := Row(u, u.stage.agent, u.stage.decision);
    var (t, r) := Consume(s, u.caller.hash, u.now, row);
    (t,
     if r.Ok? then Reading(u.stage.item.id, u.stage.decision)
     else Refusing(u, u.stage.agent, Refuse("session_revoked")))
  }

  function AfterRelease(s: State, u: Use, fetched: bool): Stage
    requires u.stage.Reading?
  {
    if ReadSecret(s.shelf, u.stage.itemId).Err? then Finished(SecretMissing)
    else if fetched then Finished(Answer(u.stage.decision))
    else Finished(FetchFailed)
  }

  predicate At(sys: System, i: nat) {
    i in sys.uses
  }

  function Move(sys: System, i: nat, stage: Stage): System
    requires At(sys, i)
  {
    sys.(uses := sys.uses[i := sys.uses[i].(stage := stage)])
  }

  function StepUse(sys: System, i: nat, a: Action): System
    requires At(sys, i)
  {
    var u := sys.uses[i];
    match a
    case TakeSnapshot(_) =>
      if u.stage.Started? then Move(sys, i, AfterSnapshot(sys.store, u)) else sys
    case Reload(_) =>
      if u.stage.Reloading? then Move(sys, i, AfterReload(sys.store, u)) else sys
    case Report(_, stored) =>
      if u.stage.Reporting? then
        var store := if stored then AppendAudits(sys.store, [u.stage.row]) else sys.store;
        Move(sys, i, Finished(Answer(u.stage.refusal))).(store := store)
      else sys
    case CommitSession(_) =>
      if u.stage.Releasing? && u.caller.BySession? then
        var (store, stage) := AfterCommit(sys.store, u);
        Move(sys, i, stage).(store := store)
      else sys
    case CommitAgent(_, stored) =>
      if u.stage.Releasing? && u.caller.ByAgent? then
        if stored then
          Move(sys, i, Reading(u.stage.item.id, u.stage.decision)).(
          store := AppendAudits(sys.store, [Row(u, u.stage.agent, u.stage.decision)]))
        else Move(sys, i, Finished(AuditFailed))
      else sys
    case Release(_, fetched) =>
      if u.stage.Reading? then Move(sys, i, AfterRelease(sys.store, u, fetched)) else sys
    case _ => sys
  }

  // ---- the owner's calls ----

  const SESSION_TTL_DEFAULT := 15 * 60 * SECOND
  const SESSION_TTL_MAX := 60 * 60 * SECOND

  function TtlOf(asked: int): int {
    if asked <= 0 then SESSION_TTL_DEFAULT else asked
  }

  /** A session as it is minted: a positive lifetime of at most the maximum, `ttl` rounded down to seconds. */
  function Minted(p: Pending, id: string, now: Time): Session
    requires p.NewSession?
  {
    Session(id, p.orgId, p.agentId, now, now + p.ttl, None, None,
            p.ttl / SECOND, SESSION_TTL_MAX / SECOND, p.maxUses, 0)
  }

  predicate SessionRequestOk(s: State, owns: bool, agentId: string, ttl: int, maxUses: int) {
    owns && TtlOf(ttl) <= SESSION_TTL_MAX && maxUses >= 0 && agentId in s.agents && !Revoked(s, agentId)
  }

  predicate GrantRequestOk(s: State, owner: string, member: bool, g: Grant) {
    && (g.level.Level1? || g.level.Level2?)
    && (if g.agentId in s.agents then
          s.agents[g.agentId].revokedAt.None? &&
          (s.agents[g.agentId].owner.id != "" ==> s.agents[g.agentId].owner.id == owner)
        else member)
    && g.itemId in s.shelf.items && !s.shelf.items[g.itemId].archived
    && g.actions == [Fetch]
  }

  ghost function StepOwner(sys: System, a: Action): System {
    var s := sys.store;
    match a
    case CheckSessionRequest(j, owns, orgId, agentId, ttl, maxUses) =>
      if j !in sys.pending && SessionRequestOk(s, owns, agentId, ttl, maxUses) then
        sys.(pending := sys.pending[j := NewSession(orgId, s.agents[agentId].id, TtlOf(ttl), maxUses)])
      else sys
    case IssueSession(j, id, hash, now) =>
      if j in sys.pending && sys.pending[j].NewSession? then
        sys.(store := PutSession(s, Minted(sys.pending[j], id, now), hash), pending := sys.pending - {j})
      else sys
    case CheckGrantRequest(j, owner, member, g) =>
      if j !in sys.pending && GrantRequestOk(s, owner, member, g) then
        sys.(pending := sys.pending[j := NewGrant(g)])
      else sys
    case IssueGrant(j) =>
      if j in sys.pending && sys.pending[j].NewGrant? then
        sys.(store := PutGrant(s, sys.pending[j].grant), pending := sys.pending - {j})
      else sys
    case AddAgent(p) => sys.(store := PutAgent(s, p))
    case KillAgent(id, at, rows) => sys.(store := RevokeAgent(s, id, at, rows).0)
    case StoreItem(item, secret) => sys.(store := s.(shelf := PutItem(s.shelf, item, secret)))
    case HideItem(id) => sys.(store := s.(shelf := ArchiveItem(s.shelf, id).0))
    case DropItem(id) => sys.(store := DeleteItem(s, id).0)
    case RestoreItem(id, version) => sys.(store := s.(shelf := RestoreVersion(s.shelf, id, version).0))
    case RecordApproval(approval) => sys.(store := PutApproval(s, approval))
    case Renew(id, at) => sys.(store := RenewSession(s, id, at).0)
    case EndSession(id, at) => sys.(store := RevokeSession(s, id, at).0)
    case SweepRows(cut) => sys.(store := Sweep(s, cut))
    case LogRows(rows) => sys.(store := AppendAudits(s, rows))
    case _ => sys
  }

  predicate IsUseStep(a: Action) {
    a.TakeSnapshot? || a.Reload? || a.Report? || a.CommitSession? || a.CommitAgent? || a.Release?
  }

  /** One atomic step; an action that is not due leaves everything as it is. */
  ghost function Step(sys: System, a: Action): System {
    if a.Start? then
      if At(sys, a.i) then sys else sys.(uses := sys.uses[a.i := Use(a.caller, a.request, a.now, Started)])
    else if IsUseStep(a) then
      if At(sys, a.i) then StepUse(sys, a.i, a) else sys
    else StepOwner(sys, a)
  }

  /** A call begins once, as its caller made it, and at no other's expense. */
  lemma CallsBegin(sys: System, i: nat, caller: Caller, request: Request, now: Time)
    ensures var t := Step(sys, Start(i, caller, request, now));
            && t == sys.(uses := t.uses) && t.uses.Keys == sys.uses.Keys + {i}
            && (forall k :: k in sys.uses ==> t.uses[k] == sys.uses[k])
            && (i !in sys.uses ==>
                  && t.uses[i].caller == caller && t.uses[i].request == request && t.uses[i].now == now
                  && t.uses[i].stage.Started?)
  {
    hide StepUse, StepOwner;
  }

  /** Which parts a call's step can touch: the log, one session, and the call itself. */
  lemma UseStepKeeps(sys: System, a: Action)
    requires IsUseStep(a) && At(sys, a.i)
    ensures var t := StepUse(sys, a.i, a);
            && t.pending == sys.pending
            && t.store == sys.store.(audit := t.store.audit, sessions := t.store.sessions)
            && t.uses == sys.uses[a.i := t.uses[a.i]]
            && (!a.CommitSession? ==> t.store.sessions == sys.store.sessions)
            && sys.store.audit <= t.store.audit
  {
  }

  /** The owner's steps touch no call in flight, and few of them touch agents or sessions. */
  lemma OwnerStepKeeps(sys: System, a: Action)
    ensures StepOwner(sys, a).uses == sys.uses
    ensures sys.store.audit <= StepOwner(sys, a).store.audit
    ensures !a.AddAgent? && !a.KillAgent? ==> StepOwner(sys, a).store.agents == sys.store.agents
    ensures !a.IssueSession? && !a.Renew? && !a.EndSession? && !a.SweepRows? ==>
              StepOwner(sys, a).store.sessions == sys.store.sessions
  {
  }

  ghost function After(sys: System, run: seq<Action>): System {
    if run == [] then sys else Step(After(sys, run[..|run| - 1]), run[|run| - 1])
  }

  /** The system as it is before the k-th step of a run. */
  ghost function Before(sys: System, run: seq<Action>, k: nat): System
    requires k <= |run|
  {
    After(sys, run[..k])
  }

  lemma {:induction false} AfterSplits(sys: System, run: seq<Action>, rest: seq<Action>)
    ensures After(sys, run + rest) == After(After(sys, run), rest)
  {
    if rest == [] {
      assert run + rest == run;
    } else {
      var n := |rest| - 1;
      assert (run + rest)[..|run + rest| - 1] == run + rest[..n];
      AfterSplits(sys, run, rest[..n]);
    }
  }

  lemma BeforeNext(sys: System, run: seq<Action>, k: nat)
    requires k < |run|
    ensures Before(sys, run, k + 1) == Step(Before(sys, run, k), run[k])
  {
    assert run[..k + 1][..k] == run[..k];
  }
}
