/**
 What holds over every interleaving of Use calls and owner's calls: no secret
 leaves without its own committed allow row, and a session's use count and
 lease are exactly what its history says.
 */
module UseSafety {
  import opened Protocol
  import opened Grants
  import opened Stores
  import opened Broker

  // ---- audit before release ----

  /** Call i asks the store for the secret. */
  predicate Reads(sys: System, a: Action, i: nat) {
    a.Release? && a.i == i && At(sys, i) && sys.uses[i].stage.Reading?
  }

  /** Call i's allow row is written: with the consumed use on the session path, by itself on the agent path. */
  predicate Commits(sys: System, a: Action, i: nat) {
    && At(sys, i)
    && sys.uses[i].stage.Releasing?
    && (var u := sys.uses[i];
        || (a == CommitAgent(i, true) && u.caller.ByAgent?)
        || (a == CommitSession(i) && u.caller.BySession? &&
            Consume(sys.store, u.caller.hash, u.now, Row(u, u.stage.agent, u.stage.decision)).1.Ok?))
  }

  /** A call about to commit has passed every gate. */
  predicate Gated(u: Use) {
    u.stage.Releasing? ==>
      u.stage.decision.decision == Allow && u.request.action == Fetch && u.request.fetch.Some? &&
      ForInjection(u.stage.item.kind)
  }

  /** None of the kinds that only the agent socket, the owner or the fill host may touch. */
  predicate ForInjection(kind: ItemKind) {
    kind != Ssh && kind != File && kind != Passkey && kind != Card && kind != Identity
  }

  lemma GatedStep(sys: System, a: Action, i: nat)
    requires At(sys, i) ==> Gated(sys.uses[i])
    requires At(Step(sys, a), i)
    ensures Gated(Step(sys, a).uses[i])
  {
    hide StepOwner;
    OwnerStepKeeps(sys, a);
  }

  lemma {:induction false} GatedRun(sys: System, run: seq<Action>, i: nat)
    requires sys.uses == map[]
    requires At(After(sys, run), i)
    ensures Gated(After(sys, run).uses[i])
  {
    if run != [] {
      var before := After(sys, run[..|run| - 1]);
      if At(before, i) {
        GatedRun(sys, run[..|run| - 1], i);
      }
      GatedStep(before, run[|run| - 1], i);
    }
  }

  /** How far a call has come; it never goes back. */
  function Rank(stage: Stage): nat {
    match stage
    case Started => 0
    case Reloading(_, _, _) => 1
    case Releasing(_, _, _) => 2
    case Reporting(_, _) => 3
    case Reading(_, _) => 3
    case Finished(_) => 4
  }

  lemma CallMoves(sys: System, a: Action, i: nat)
    requires IsUseStep(a) && a.i == i && At(sys, i)
    ensures At(StepUse(sys, i, a), i)
    ensures var u, v := sys.uses[i], StepUse(sys, i, a).uses[i];
            && v == u.(stage := v.stage)
            && Rank(u.stage) <= Rank(v.stage)
            && (v.stage.Reading? ==> u.stage == v.stage || Commits(sys, a, i))
            && (Commits(sys, a, i) ==> v.stage.Reading?)
  {
    hide Evaluate, Authorization, SessionAuthorization, Consume;
  }

  /** A call keeps its caller, request and clock reading, moves only forward, and reaches `Reading` only by committing. */
  lemma CallStep(sys: System, a: Action, i: nat)
    requires At(sys, i)
    ensures At(Step(sys, a), i)
    ensures var u, v := sys.uses[i], Step(sys, a).uses[i];
            && v == u.(stage := v.stage)
            && Rank(u.stage) <= Rank(v.stage)
            && (v.stage.Reading? ==> u.stage == v.stage || Commits(sys, a, i))
            && (Commits(sys, a, i) ==> v.stage.Reading?)
  {
    hide StepOwner, StepUse, Consume;
    OwnerStepKeeps(sys, a);
    if IsUseStep(a) && At(sys, a.i) {
      UseStepKeeps(sys, a);
      CallMoves(sys, a, a.i);
    }
  }

  lemma {:induction false} CallRun(sys: System, run: seq<Action>, i: nat, k: nat)
    requires k <= |run|
    requires At(Before(sys, run, k), i)
    ensures At(After(sys, run), i)
    ensures Rank(Before(sys, run, k).uses[i].stage) <= Rank(After(sys, run).uses[i].stage)
  {
    if k == |run| {
      assert run[..k] == run;
    } else {
      var shorter := run[..|run| - 1];
      assert run[..k] == shorter[..k];
      CallRun(sys, shorter, i, k);
      CallStep(After(sys, shorter), run[|run| - 1], i);
    }
  }

  lemma AuditStep(sys: System, a: Action)
    ensures sys.store.audit <= Step(sys, a).store.audit
  {
    hide StepOwner, StepUse;
    OwnerStepKeeps(sys, a);
    if IsUseStep(a) && At(sys, a.i) {
      UseStepKeeps(sys, a);
    }
  }

  lemma {:induction false} AuditGrows(sys: System, run: seq<Action>, k: nat)
    requires k <= |run|
    ensures Before(sys, run, k).store.audit <= After(sys, run).store.audit
  {
    if k == |run| {
      assert run[..k] == run;
    } else {
      var shorter := run[..|run| - 1];
      assert run[..k] == shorter[..k];
      AuditGrows(sys, shorter, k);
      AuditStep(After(sys, shorter), run[|run| - 1]);
    }
  }

  /** Call i committed at step k of the run. */
  ghost predicate CommittedAt(sys: System, run: seq<Action>, k: nat, i: nat) {
    k < |run| && Commits(Before(sys, run, k), run[k], i)
  }

  /** The place of step k's row in the audit log. */
  ghost function RowIndex(sys: System, run: seq<Action>, k: nat): nat
    requires k <= |run|
  {
    |Before(sys, run, k).store.audit|
  }

  /** What a commit of call i leaves in the log, and what it found at that very step. */
  ghost predicate Witnessed(sys: System, run: seq<Action>, k: nat, i: nat)
    requires CommittedAt(sys, run, k, i)
  {
    var at := Before(sys, run, k);
    var u := at.uses[i];
    var n := RowIndex(sys, run, k);
    var log := After(sys, run).store.audit;
    && n < |log|
    && log[n].decision == Allow
    && log[n].itemId == u.request.itemId
    && log[n].action == Fetch
    && log[n].time == u.now
    && ForInjection(u.stage.item.kind)
    && (u.caller.BySession? ==>
          && u.caller.hash in at.store.sessions
          && (var sess := at.store.sessions[u.caller.hash];
              && Live(sess, u.now)
              && sess.agentId in at.store.agents
              && !Revoked(at.store, sess.agentId)
              && log[n].agentId == at.store.agents[sess.agentId].id
              && log[n].orgId == at.store.agents[sess.agentId].orgId))
    && (u.caller.ByAgent? ==>
          log[n].agentId == u.stage.agent.id && log[n].orgId == u.stage.agent.orgId)
  }

  /** Agents are filed under their own ids. */
  predicate Keyed(s: State) {
    forall id :: id in s.agents ==> s.agents[id].id == id
  }

  lemma KeyedStep(sys: System, a: Action)
    requires Keyed(sys.store)
    ensures Keyed(Step(sys, a).store)
  {
    if a.AddAgent? || a.KillAgent? {
    } else {
      hide StepUse, StepOwner;
      OwnerStepKeeps(sys, a);
      if IsUseStep(a) && At(sys, a.i) {
        UseStepKeeps(sys, a);
      }
    }
  }

  /** The agent a call acts for is the one it was made by, as the store has it. */
  predicate ActsForCaller(u: Use) {
    u.caller.ByAgent? ==>
      (u.stage.Reloading? || u.stage.Releasing? ==> u.stage.agent.id == u.caller.principal.id)
  }

  lemma ActsMove(sys: System, a: Action, i: nat)
    requires Keyed(sys.store) && IsUseStep(a) && a.i == i && At(sys, i) && ActsForCaller(sys.uses[i])
    ensures ActsForCaller(StepUse(sys, i, a).uses[i])
  {
    hide Evaluate, SessionAuthorization, Consume;
  }

  lemma ActsStep(sys: System, a: Action, i: nat)
    requires Keyed(sys.store) && (At(sys, i) ==> ActsForCaller(sys.uses[i])) && At(Step(sys, a), i)
    ensures ActsForCaller(Step(sys, a).uses[i])
  {
    hide StepOwner, StepUse;
    OwnerStepKeeps(sys, a);
    if IsUseStep(a) && At(sys, a.i) {
      UseStepKeeps(sys, a);
      if a.i == i {
        ActsMove(sys, a, i);
      }
    }
  }

  lemma {:induction false} ActsRun(sys: System, run: seq<Action>, i: nat)
    requires Keyed(sys.store) && sys.uses == map[]
    ensures Keyed(After(sys, run).store)
    ensures At(After(sys, run), i) ==> ActsForCaller(After(sys, run).uses[i])
  {
    hide Step, ActsForCaller, Keyed;
    if run != [] {
      ActsRun(sys, run[..|run| - 1], i);
      KeyedStep(After(sys, run[..|run| - 1]), run[|run| - 1]);
      if At(After(sys, run), i) {
        ActsStep(After(sys, run[..|run| - 1]), run[|run| - 1], i);
      }
    }
  }

  /** On the agent path the row carries the id the caller came with. */
  ghost predicate NamesCaller(sys: System, run: seq<Action>, k: nat, i: nat)
    requires CommittedAt(sys, run, k, i)
  {
    var u := Before(sys, run, k).uses[i];
    var n, log := RowIndex(sys, run, k), After(sys, run).store.audit;
    u.caller.ByAgent? ==> n < |log| && log[n].agentId == u.caller.principal.id
  }

  lemma CommitIsWitnessed(sys: System, run: seq<Action>, k: nat, i: nat)
    requires sys.uses == map[]
    requires CommittedAt(sys, run, k, i)
    ensures Witnessed(sys, run, k, i)
    ensures Keyed(sys.store) ==> NamesCaller(sys, run, k, i)
  {
    GatedRun(sys, run[..k], i);
    if Keyed(sys.store) {
      ActsRun(sys, run[..k], i);
    }
    BeforeNext(sys, run, k);
    AuditGrows(sys, run, k + 1);
  }

  lemma {:induction false} ReadingWasCommitted(sys: System, run: seq<Action>, i: nat) returns (k: nat)
    requires sys.uses == map[]
    requires At(After(sys, run), i) && After(sys, run).uses[i].stage.Reading?
    ensures CommittedAt(sys, run, k, i)
  {
    var n := |run| - 1;
    var shorter := run[..n];
    var b := After(sys, shorter);
    if At(b, i) {
      CallStep(b, run[n], i);
      if b.uses[i].stage.Reading? {
        k := ReadingWasCommitted(sys, shorter, i);
        assert shorter[..k] == run[..k];
      } else {
        k := n;
      }
    }
  }

  /**
   Every secret read, on either path and in any run, comes after a committed allow
   row of the same call, in the agent's own name; on the session path that same
   step found the session live and its agent unrevoked.
   */
  lemma NoReleaseWithoutRow(sys: System, run: seq<Action>, j: nat, i: nat) returns (k: nat)
    requires sys.uses == map[]
    requires j < |run|
    requires Reads(Before(sys, run, j), run[j], i)
    ensures k < j && CommittedAt(sys, run, k, i) && Witnessed(sys, run, k, i)
    ensures Keyed(sys.store) ==> NamesCaller(sys, run, k, i)
    ensures RowIndex(sys, run, k) < RowIndex(sys, run, j)
  {
    k := ReadingWasCommitted(sys, run[..j], i);
    assert run[..j][..k] == run[..k];
    CommitIsWitnessed(sys, run, k, i);
    CommitIsWitnessed(sys, run[..j], k, i);
  }

  /** The row is the call's own: a call commits at most once, and no two commits share a row. */
  lemma RowsAreOwn(sys: System, run: seq<Action>, k1: nat, k2: nat, i1: nat, i2: nat)
    requires CommittedAt(sys, run, k1, i1) && CommittedAt(sys, run, k2, i2)
    ensures k1 == k2 <==> i1 == i2
    ensures RowIndex(sys, run, k1) == RowIndex(sys, run, k2) ==> i1 == i2
  {
    if k1 < k2 {
      EarlierCommit(sys, run, k1, k2, i1, i2);
    } else if k2 < k1 {
      EarlierCommit(sys, run, k2, k1, i2, i1);
    }
  }

  lemma CommitAddsRow(sys: System, a: Action, i: nat)
    requires Commits(sys, a, i)
    ensures |Step(sys, a).store.audit| == |sys.store.audit| + 1
  {
    hide StepOwner;
  }

  lemma EarlierCommit(sys: System, run: seq<Action>, k1: nat, k2: nat, i1: nat, i2: nat)
    requires CommittedAt(sys, run, k1, i1) && CommittedAt(sys, run, k2, i2) && k1 < k2
    ensures i1 != i2
    ensures RowIndex(sys, run, k1) < RowIndex(sys, run, k2)
  {
    hide Step;
    var upTo := run[..k2];
    assert upTo[..k1 + 1] == run[..k1 + 1] && upTo[..k1] == run[..k1];
    BeforeNext(sys, run, k1);
    AuditGrows(sys, upTo, k1 + 1);
    CommitAddsRow(Before(sys, run, k1), run[k1], i1);
    CallStep(Before(sys, run, k1), run[k1], i1);
    CallRun(sys, upTo, i1, k1 + 1);
  }

  // ---- the decision behind a release ----

  /** What the snapshot step reads for a call, if its caller is one. */
  function SnapshotOf(s: State, u: Use): Option<(Principal, UseAuth)> {
    match u.caller
    case ByAgent(p) =>
      var auth := Authorization(s, p.id, u.request.itemId, u.now);
      Some((if auth.agent.id != "" then auth.agent else p, auth))
    case BySession(hash) =>
      match SessionAuthorization(s, hash, u.request.itemId, u.now)
      case Err(_) => None
      case Ok(auth) => if auth.agent.id == "" then None else Some((auth.agent, auth))
  }

  /** The store, as it is, lets this call fetch this item from its target. */
  predicate Authorized(s: State, u: Use) {
    var snap := SnapshotOf(s, u);
    && snap.Some? && u.request.action == Fetch && u.request.fetch.Some?
    && snap.value.1.item.id != ""
    && Evaluate(Input(snap.value.0, snap.value.1.item, snap.value.1.grant, Fetch, u.request.fetch.value,
                      snap.value.1.approval, u.now)).decision == Allow
  }

  /** The item a call means to release, once its decision is to allow. */
  function Promised(stage: Stage): Option<string> {
    match stage
    case Reloading(_, item, decision) => if decision.decision == Allow then Some(item.id) else None
    case Releasing(_, item, _) => Some(item.id)
    case Reading(itemId, _) => Some(itemId)
    case Started => None
    case Reporting(_, _) => None
    case Finished(_) => None
  }

  lemma SnapshotPromises(s: State, u: Use)
    requires Promised(AfterSnapshot(s, u)).Some? && u.request.action == Fetch && u.request.fetch.Some?
    ensures Authorized(s, u) && Promised(AfterSnapshot(s, u)) == Some(SnapshotOf(s, u).value.1.item.id)
  {
    hide Evaluate, Authorization, SessionAuthorization;
  }

  lemma PromiseMove(sys: System, a: Action, i: nat)
    requires IsUseStep(a) && a.i == i && At(sys, i) && Promised(StepUse(sys, i, a).uses[i].stage).Some?
    ensures Promised(StepUse(sys, i, a).uses[i].stage) == Promised(sys.uses[i].stage)
            || (a == TakeSnapshot(i) && sys.uses[i].stage.Started? &&
                StepUse(sys, i, a).uses[i].stage == AfterSnapshot(sys.store, sys.uses[i]))
  {
    hide Evaluate, Authorization, SessionAuthorization, Consume, AfterSnapshot;
  }

  lemma PromiseStep(sys: System, a: Action, i: nat)
    requires At(sys, i) && Promised(Step(sys, a).uses[i].stage).Some?
    ensures Promised(Step(sys, a).uses[i].stage) == Promised(sys.uses[i].stage)
            || (a == TakeSnapshot(i) && sys.uses[i].stage.Started? &&
                Step(sys, a).uses[i].stage == AfterSnapshot(sys.store, sys.uses[i]))
  {
    hide StepOwner, StepUse, AfterSnapshot;
    OwnerStepKeeps(sys, a);
    if IsUseStep(a) && At(sys, a.i) {
      UseStepKeeps(sys, a);
      if a.i == i {
        PromiseMove(sys, a, i);
      }
    }
  }

  /** At step k of the run the call took its snapshot, and what it read authorized the fetch of that item. */
  ghost predicate AuthorizedAt(sys: System, run: seq<Action>, k: nat, i: nat, itemId: string) {
    && k < |run| && run[k] == TakeSnapshot(i) && At(Before(sys, run, k), i)
    && Before(sys, run, k).uses[i].stage.Started?
    && Authorized(Before(sys, run, k).store, Before(sys, run, k).uses[i])
    && SnapshotOf(Before(sys, run, k).store, Before(sys, run, k).uses[i]).value.1.item.id == itemId
  }

  lemma {:induction false} PromiseWasAuthorized(sys: System, run: seq<Action>, i: nat) returns (k: nat)
    requires sys.uses == map[]
    requires At(After(sys, run), i) && Promised(After(sys, run).uses[i].stage).Some?
    requires After(sys, run).uses[i].request.action == Fetch && After(sys, run).uses[i].request.fetch.Some?
    ensures AuthorizedAt(sys, run, k, i, Promised(After(sys, run).uses[i].stage).value)
    ensures Before(sys, run, k).uses[i] == After(sys, run).uses[i].(stage := Started)
  {
    hide Step, SnapshotOf, Authorized, AfterSnapshot;
    var n := |run| - 1;
    var shorter := run[..n];
    var b := After(sys, shorter);
    NewCallsHaveStarted(b, run[n], i);
    CallStep(b, run[n], i);
    PromiseStep(b, run[n], i);
    if Promised(Step(b, run[n]).uses[i].stage) == Promised(b.uses[i].stage) {
      k := PromiseWasAuthorized(sys, shorter, i);
      assert shorter[..k] == run[..k];
    } else {
      k := n;
      SnapshotPromises(b.store, b.uses[i]);
    }
  }

  lemma NewCallsHaveStarted(sys: System, a: Action, i: nat)
    requires At(Step(sys, a), i) && !Step(sys, a).uses[i].stage.Started?
    ensures At(sys, i)
  {
    hide StepOwner, StepUse;
    OwnerStepKeeps(sys, a);
    if IsUseStep(a) && At(sys, a.i) {
      UseStepKeeps(sys, a);
    }
  }

  /** What such an authorization is, in the store's own rows. */
  lemma AuthorizedMeans(s: State, u: Use)
    requires Authorized(s, u)
    ensures var (agent, auth) := SnapshotOf(s, u).value;
            && agent.kind == Agent && agent.revokedAt.None?
            && u.request.itemId in s.shelf.items && auth.item == s.shelf.items[u.request.itemId]
            && !auth.item.archived && HostAllowed(auth.item, u.request.fetch.value)
            && (exists k :: k in s.grants && auth.grant == Some(s.grants[k]) && k.1 == u.request.itemId &&
                            (u.caller.ByAgent? ==> k.0 == u.caller.principal.id) &&
                            (u.caller.BySession? ==>
                               u.caller.hash in s.sessions && Live(s.sessions[u.caller.hash], u.now) &&
                               k.0 == s.sessions[u.caller.hash].agentId))
            && (var g := auth.grant.value;
                && g.agentId == agent.id && g.itemId == auth.item.id && Fetch in g.actions
                && (g.expiresAt.Some? ==> u.now < g.expiresAt.value)
                && (g.level.Level2? ||
                    (g.id in s.approvals && s.approvals[g.id].grantId == g.id && u.now < s.approvals[g.id].expiresAt)))
  {
    hide Evaluate, HostAllowed;
    var (agent, auth) := SnapshotOf(s, u).value;
    EvaluateMeans(Input(agent, auth.item, auth.grant, Fetch, u.request.fetch.value, auth.approval, u.now));
    assert HostAllowed(auth.item, u.request.fetch.value);
    var agentId := if u.caller.ByAgent? then u.caller.principal.id else s.sessions[u.caller.hash].agentId;
    assert (agentId, u.request.itemId) in s.grants;
  }

  /** The agent a call acts for, and the id its grants are looked up by. */
  function Acting(s: State, u: Use): Option<(Principal, string)> {
    match u.caller
    case ByAgent(p) => Some((if p.id in s.agents && s.agents[p.id].id != "" then s.agents[p.id] else p, p.id))
    case BySession(hash) =>
      if hash !in s.sessions then None
      else
        var sess := s.sessions[hash];
        if sess.revokedAt.Some? || sess.expiresAt <= u.now || (sess.maxUses > 0 && sess.uses >= sess.maxUses) then None
        else if sess.agentId !in s.agents || s.agents[sess.agentId].id == "" then None
        else Some((s.agents[sess.agentId], sess.agentId))
  }

  /** The rows that let an agent fetch an item from a target, one by one. */
  predicate Permitted(s: State, agent: Principal, agentId: string, itemId: string, target: RawUrl, now: Time) {
    && agent.kind == Agent && agent.revokedAt.None?
    && itemId in s.shelf.items && (agentId, itemId) in s.grants
    && (var item, g := s.shelf.items[itemId], s.grants[(agentId, itemId)];
        && item.id != "" && !item.archived && HostAllowed(item, target)
        && g.orgId == agent.orgId && g.orgId == item.orgId && g.agentId == agent.id && g.itemId == item.id
        && (g.expiresAt.None? || now < g.expiresAt.value)
        && Fetch in g.actions
        && (g.level == Level2 ||
            (g.level == Level1 && g.id in s.approvals &&
             s.approvals[g.id].grantId == g.id && now < s.approvals[g.id].expiresAt)))
  }

  /** A snapshot authorizes a fetch exactly when the rows permit it. */
  lemma AuthorizedIff(s: State, u: Use)
    requires u.request.action == Fetch && u.request.fetch.Some?
    ensures Authorized(s, u) <==>
            Acting(s, u).Some? &&
            Permitted(s, Acting(s, u).value.0, Acting(s, u).value.1, u.request.itemId, u.request.fetch.value, u.now)
  {
    hide Evaluate, HostAllowed;
    var snap := SnapshotOf(s, u);
    if snap.Some? {
      var (agent, auth) := snap.value;
      EvaluateMeans(Input(agent, auth.item, auth.grant, Fetch, u.request.fetch.value, auth.approval, u.now));
      ActionAllowedIff(if auth.grant.Some? then auth.grant.value.actions else [], Fetch);
    }
  }

  /**
   And behind every release stands a decision: at an earlier step of the same call, the store held a grant, live
   for the item, the target and the time, that allowed it, for an agent not revoked and an item not archived.
   */
  lemma NoReleaseWithoutAuthorization(sys: System, run: seq<Action>, j: nat, i: nat) returns (k: nat)
    requires sys.uses == map[]
    requires j < |run| && Reads(Before(sys, run, j), run[j], i)
    ensures k < j
    ensures AuthorizedAt(sys, run, k, i, Before(sys, run, j).uses[i].stage.itemId)
    ensures Before(sys, run, k).uses[i] == Before(sys, run, j).uses[i].(stage := Started)
  {
    hide Authorized, SnapshotOf;
    var committed := ReadingWasCommitted(sys, run[..j], i);
    GatedRun(sys, run[..j][..committed], i);
    RequestStays(sys, run[..j], i, committed);
    k := PromiseWasAuthorized(sys, run[..j], i);
    assert run[..j][..k] == run[..k];
  }

  lemma {:induction false} RequestStays(sys: System, run: seq<Action>, i: nat, k: nat)
    requires k <= |run| && At(Before(sys, run, k), i)
    ensures At(After(sys, run), i)
    ensures After(sys, run).uses[i] == Before(sys, run, k).uses[i].(stage := After(sys, run).uses[i].stage)
  {
    hide Step;
    if k == |run| {
      assert run[..k] == run;
    } else {
      var shorter := run[..|run| - 1];
      assert run[..k] == shorter[..k];
      RequestStays(sys, shorter, i, k);
      CallStep(After(sys, shorter), run[|run| - 1], i);
    }
  }

  // ---- conservation of uses, and the lease ----

  /** What the run says about the session now under a hash: how it was minted, and its rows and renewals since. */
  datatype History = History(born: Option<Session>, rows: nat, renewals: nat)

  predicate Issues(sys: System, a: Action, hash: Hash) {
    a.IssueSession? && a.hash == hash && a.j in sys.pending && sys.pending[a.j].NewSession?
  }

  predicate CommitsOn(sys: System, a: Action, hash: Hash) {
    a.CommitSession? && Commits(sys, a, a.i) && sys.uses[a.i].caller.hash == hash
  }

  ghost predicate Renews(sys: System, a: Action, hash: Hash) {
    && a.Renew? && Knows(sys.store, a.id) && Locate(sys.store, a.id) == hash
    && RenewAt(sys.store, hash, a.at).1.Ok?
  }

  ghost function Told(sys: System, run: seq<Action>, hash: Hash): History {
    if run == [] then History(None, 0, 0)
    else
      var before, a := After(sys, run[..|run| - 1]), run[|run| - 1];
      var h := Told(sys, run[..|run| - 1], hash);
      if Issues(before, a, hash) then History(Some(Minted(before.pending[a.j], a.id, a.now)), 0, 0)
      else if CommitsOn(before, a, hash) then h.(rows := h.rows + 1)
      else if Renews(before, a, hash) then h.(renewals := h.renewals + 1)
      else h
  }

  function Min(x: int, y: int): int {
    if x <= y then x else y
  }

  /** When a session runs out after so many renewals, in closed form. */
  function LeaseEnd(born: Session, renewals: nat): Time {
    Min(born.expiresAt + renewals * (born.ttl * SECOND), born.createdAt + born.maxTtl * SECOND)
  }

  /** A session is what it was minted as, but for its counted uses, its lease and its revocation. */
  predicate Accounted(sess: Session, h: History) {
    && h.born.Some?
    && (var born := h.born.value;
        && sess == born.(uses := h.rows, expiresAt := LeaseEnd(born, h.renewals),
                         revokedAt := sess.revokedAt, renewedAt := sess.renewedAt)
        && born.createdAt < born.expiresAt <= born.createdAt + SESSION_TTL_MAX
        && born.maxTtl * SECOND == SESSION_TTL_MAX
        && born.ttl == (born.expiresAt - born.createdAt) / SECOND
        && born.maxUses >= 0
        && (born.maxUses > 0 ==> h.rows <= born.maxUses))
  }

  predicate PendingSane(sys: System) {
    forall j :: j in sys.pending && sys.pending[j].NewSession? ==>
      0 < sys.pending[j].ttl <= SESSION_TTL_MAX && sys.pending[j].maxUses >= 0
  }

  lemma PendingSaneStep(sys: System, a: Action)
    requires PendingSane(sys)
    ensures PendingSane(Step(sys, a))
  {
    hide StepUse;
    if IsUseStep(a) && At(sys, a.i) {
      UseStepKeeps(sys, a);
    }
  }

  lemma {:induction false} PendingSaneRun(sys: System, run: seq<Action>)
    requires sys.pending == map[]
    ensures PendingSane(After(sys, run))
  {
    if run != [] {
      PendingSaneRun(sys, run[..|run| - 1]);
      PendingSaneStep(After(sys, run[..|run| - 1]), run[|run| - 1]);
    }
  }

  lemma LeaseExtends(born: Session, renewals: nat, sess: Session)
    requires born.ttl >= 0
    requires sess.createdAt == born.createdAt && sess.ttl == born.ttl && sess.maxTtl == born.maxTtl
    requires sess.expiresAt == LeaseEnd(born, renewals)
    ensures Extended(sess) == LeaseEnd(born, renewals + 1)
    ensures LeaseEnd(born, renewals) <= LeaseEnd(born, renewals + 1)
  {
    var step := born.ttl * SECOND;
    assert (renewals + 1) * step == renewals * step + step;
  }

  /**
   Over every run from a store without sessions: each session's use count is the
   number of allow rows committed for it since it was minted and never passes
   a positive limit; its expiry is in closed form.
   */
  lemma {:induction false} SessionsAreAccounted(sys: System, run: seq<Action>, hash: Hash)
    requires sys.store.sessions == map[] && sys.pending == map[]
    requires hash in After(sys, run).store.sessions
    ensures Accounted(After(sys, run).store.sessions[hash], Told(sys, run, hash))
  {
    var shorter, a := run[..|run| - 1], run[|run| - 1];
    var before := After(sys, shorter);
    PendingSaneRun(sys, shorter);
    if Issues(before, a, hash) {
      MintedLease(before.pending[a.j], a.id, a.now);
    } else {
      StepKeepsSessions(before, a, hash);
      SessionsAreAccounted(sys, shorter, hash);
      if Renews(before, a, hash) {
        var h := Told(sys, shorter, hash);
        LeaseExtends(h.born.value, h.renewals, before.store.sessions[hash]);
      }
    }
  }

  /** The places in the log of the rows committed for the session now under a hash. */
  ghost function UseRows(sys: System, run: seq<Action>, hash: Hash): seq<nat> {
    if run == [] then []
    else
      var before, a := After(sys, run[..|run| - 1]), run[|run| - 1];
      if Issues(before, a, hash) then []
      else UseRows(sys, run[..|run| - 1], hash) +
           (if CommitsOn(before, a, hash) then [|before.store.audit|] else [])
  }

  ghost predicate AllowRowsAt(log: seq<AuditEvent>, rows: seq<nat>) {
    && (forall m, n :: 0 <= m < n < |rows| ==> rows[m] < rows[n])
    && forall n :: 0 <= n < |rows| ==> rows[n] < |log| && log[rows[n]].decision == Allow && log[rows[n]].action == Fetch
  }

  lemma AllowRowsStay(log: seq<AuditEvent>, more: seq<AuditEvent>, rows: seq<nat>)
    requires AllowRowsAt(log, rows) && log <= more
    ensures AllowRowsAt(more, rows)
  {
  }

  /** Uses and rows match one to one: as many as counted, each at its own place in the log, each an allow of a fetch. */
  lemma {:induction false} UsesAreRows(sys: System, run: seq<Action>, hash: Hash)
    requires sys.uses == map[]
    ensures |UseRows(sys, run, hash)| == Told(sys, run, hash).rows
    ensures AllowRowsAt(After(sys, run).store.audit, UseRows(sys, run, hash))
  {
    hide Step, Commits, Witnessed, Issues, Renews;
    if run != [] {
      var n := |run| - 1;
      var shorter, a := run[..n], run[n];
      var before := After(sys, shorter);
      UsesAreRows(sys, shorter, hash);
      AuditStep(before, a);
      AllowRowsStay(before.store.audit, After(sys, run).store.audit, UseRows(sys, shorter, hash));
      if CommitsOn(before, a, hash) {
        CommitRow(sys, run, n, a.i);
      }
    }
  }

  lemma CommitRow(sys: System, run: seq<Action>, k: nat, i: nat)
    requires sys.uses == map[] && CommittedAt(sys, run, k, i)
    ensures var n, log := RowIndex(sys, run, k), After(sys, run).store.audit;
            n < |log| && log[n].decision == Allow && log[n].action == Fetch
  {
    CommitIsWitnessed(sys, run, k, i);
  }

  /** So a session's use count is the number of distinct allow rows its uses left in the log. */
  lemma UseCountIsRowCount(sys: System, run: seq<Action>, hash: Hash)
    requires sys.store.sessions == map[] && sys.pending == map[] && sys.uses == map[]
    requires hash in After(sys, run).store.sessions
    ensures var rows := UseRows(sys, run, hash);
            After(sys, run).store.sessions[hash].uses == |rows| && AllowRowsAt(After(sys, run).store.audit, rows)
  {
    SessionsAreAccounted(sys, run, hash);
    UsesAreRows(sys, run, hash);
  }

  lemma MintedLease(p: Pending, id: string, now: Time)
    requires p.NewSession? && 0 < p.ttl <= SESSION_TTL_MAX && p.maxUses >= 0
    ensures Accounted(Minted(p, id, now), History(Some(Minted(p, id, now)), 0, 0))
  {
  }

  lemma RenewStep(sys: System, a: Action, hash: Hash)
    requires a.Renew? && hash in StepOwner(sys, a).store.sessions
    ensures hash in sys.store.sessions
    ensures var s, t := sys.store.sessions[hash], StepOwner(sys, a).store.sessions[hash];
            && (Renews(sys, a, hash) ==> t == s.(expiresAt := Extended(s), renewedAt := t.renewedAt))
            && (!Renews(sys, a, hash) ==> t == s)
  {
    hide Extended;
  }

  lemma RevokeOrSweepStep(sys: System, a: Action, hash: Hash)
    requires a.EndSession? || a.SweepRows? || a.IssueSession?
    requires hash in StepOwner(sys, a).store.sessions
    requires !Issues(sys, a, hash)
    ensures hash in sys.store.sessions
    ensures var s, t := sys.store.sessions[hash], StepOwner(sys, a).store.sessions[hash];
            t == s.(revokedAt := t.revokedAt) && (s.revokedAt.Some? ==> t.revokedAt.Some?)
  {
    hide Extended, Minted;
  }

  /** What a step of the owner's that is not an issue can do to the session under a hash. */
  lemma OwnerKeepsSession(sys: System, a: Action, hash: Hash)
    requires hash in StepOwner(sys, a).store.sessions
    requires !Issues(sys, a, hash)
    ensures hash in sys.store.sessions
    ensures var s, t := sys.store.sessions[hash], StepOwner(sys, a).store.sessions[hash];
            && (Renews(sys, a, hash) ==> t == s.(expiresAt := Extended(s), renewedAt := t.renewedAt))
            && (!Renews(sys, a, hash) ==> t == s.(revokedAt := t.revokedAt))
            && (s.revokedAt.Some? ==> t.revokedAt.Some?)
  {
    hide Extended, Minted;
    if a.Renew? {
      hide StepOwner;
      RenewStep(sys, a, hash);
    } else if a.EndSession? || a.SweepRows? || a.IssueSession? {
      hide StepOwner;
      RevokeOrSweepStep(sys, a, hash);
    } else {
      hide StepOwner;
      OwnerStepKeeps(sys, a);
    }
  }

  /** What a call's step can do to it. */
  lemma UseKeepsSession(sys: System, a: Action, hash: Hash)
    requires IsUseStep(a) && At(sys, a.i)
    requires hash in StepUse(sys, a.i, a).store.sessions
    ensures hash in sys.store.sessions
    ensures var s, t := sys.store.sessions[hash], StepUse(sys, a.i, a).store.sessions[hash];
            if CommitsOn(sys, a, hash) then
              t == s.(uses := s.uses + 1) && !Exhausted(s) && Live(s, sys.uses[a.i].now)
            else t == s
  {
    hide AfterSnapshot, AfterReload, AfterRelease;
  }

  /** The only ways a step can touch the session under a hash. */
  lemma StepKeepsSessions(sys: System, a: Action, hash: Hash)
    requires hash in Step(sys, a).store.sessions
    requires !Issues(sys, a, hash)
    ensures hash in sys.store.sessions
    ensures var s, t := sys.store.sessions[hash], Step(sys, a).store.sessions[hash];
            && (CommitsOn(sys, a, hash) ==> t == s.(uses := s.uses + 1) && !Exhausted(s) && Live(s, sys.uses[a.i].now))
            && (Renews(sys, a, hash) ==> t == s.(expiresAt := Extended(s), renewedAt := t.renewedAt))
            && (!CommitsOn(sys, a, hash) && !Renews(sys, a, hash) ==> t == s.(revokedAt := t.revokedAt))
            && (s.revokedAt.Some? ==> t.revokedAt.Some?)
  {
    hide StepOwner, StepUse;
    if IsUseStep(a) {
      if At(sys, a.i) {
        UseKeepsSession(sys, a, hash);
      }
    } else if !a.Start? {
      OwnerKeepsSession(sys, a, hash);
    }
  }

  /** No use is ever counted at or after creation plus the maximum lifetime, however often the session is renewed. */
  lemma NoUsePastMaximum(sys: System, run: seq<Action>, k: nat, hash: Hash)
    requires sys.store.sessions == map[] && sys.pending == map[]
    requires k < |run|
    requires CommitsOn(Before(sys, run, k), run[k], hash)
    ensures var before := Before(sys, run, k);
            && Told(sys, run[..k], hash).born.Some?
            && before.uses[run[k].i].now < Told(sys, run[..k], hash).born.value.createdAt + SESSION_TTL_MAX
  {
    SessionsAreAccounted(sys, run[..k], hash);
  }

  /** Expiry never moves back while a session stays in the store. */
  lemma ExpiryNeverDecreases(sys: System, a: Action, hash: Hash)
    requires hash in sys.store.sessions && hash in Step(sys, a).store.sessions
    requires !Issues(sys, a, hash)
    ensures sys.store.sessions[hash].expiresAt <= Step(sys, a).store.sessions[hash].expiresAt
  {
    StepKeepsSessions(sys, a, hash);
  }
}
