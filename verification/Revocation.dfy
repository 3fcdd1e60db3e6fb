/**
 Revocation is permanent: nothing un-revokes an agent, its sessions stop counting
 uses, and every call that reloads it is refused. The one thing that can still
 appear is a session or grant whose check came before the revocation and whose
 write comes after it; it is dead on arrival.
 */
module Revocation {
  import opened Protocol
  import opened Grants
  import opened Stores
  import opened Broker
  import opened UseSafety

  lemma RevokedStep(sys: System, a: Action, id: string)
    requires Revoked(sys.store, id)
    ensures Revoked(Step(sys, a).store, id)
    ensures Step(sys, a).store.agents[id].revokedAt == sys.store.agents[id].revokedAt
            || (a.AddAgent? && a.p.id == id && a.p.revokedAt.Some?)
  {
    if a.AddAgent? || a.KillAgent? {
    } else {
      hide StepUse, StepOwner;
      OwnerStepKeeps(sys, a);
      if IsUseStep(a) && At(sys, a.i) {
        UseStepKeeps(sys, a);
      }
    }
  }

  /** Once revoked, revoked for good: over every run of every kind of step. */
  lemma {:induction false} RevocationIsPermanent(sys: System, run: seq<Action>, id: string)
    requires Revoked(sys.store, id)
    ensures Revoked(After(sys, run).store, id)
  {
    if run != [] {
      RevocationIsPermanent(sys, run[..|run| - 1], id);
      RevokedStep(After(sys, run[..|run| - 1]), run[|run| - 1], id);
    }
  }

  /** No use of a revoked agent's session is ever committed. */
  lemma NoCommitForRevoked(sys: System, run: seq<Action>, k: nat, hash: Hash, id: string)
    requires Revoked(sys.store, id)
    requires k < |run|
    requires hash in Before(sys, run, k).store.sessions
    requires Before(sys, run, k).store.sessions[hash].agentId == id
    ensures !CommitsOn(Before(sys, run, k), run[k], hash)
  {
    RevocationIsPermanent(sys, run[..k], id);
  }

  /** So the use counts of its sessions are frozen. */
  lemma UsesAreFrozen(sys: System, a: Action, hash: Hash, id: string)
    requires Revoked(sys.store, id)
    requires hash in sys.store.sessions && sys.store.sessions[hash].agentId == id
    requires hash in Step(sys, a).store.sessions && !Issues(sys, a, hash)
    ensures Step(sys, a).store.sessions[hash].uses == sys.store.sessions[hash].uses
    ensures Step(sys, a).store.sessions[hash].agentId == id
  {
    StepKeepsSessions(sys, a, hash);
    NoCommitForRevoked(sys, [a], 0, hash, id);
  }

  /** The whole-run form: while the session stays under its hash, not one use is added. */
  lemma {:induction false} UsesStayFrozen(sys: System, run: seq<Action>, hash: Hash, id: string)
    requires Revoked(sys.store, id)
    requires hash in sys.store.sessions && sys.store.sessions[hash].agentId == id
    requires forall k :: 0 <= k <= |run| ==> hash in Before(sys, run, k).store.sessions
    requires forall k :: 0 <= k < |run| ==> !Issues(Before(sys, run, k), run[k], hash)
    ensures hash in After(sys, run).store.sessions
    ensures After(sys, run).store.sessions[hash].uses == sys.store.sessions[hash].uses
    ensures After(sys, run).store.sessions[hash].agentId == id
  {
    if run == [] {
    } else {
      var n := |run| - 1;
      var shorter := run[..n];
      forall k | 0 <= k <= n
        ensures hash in Before(sys, shorter, k).store.sessions
      {
        assert shorter[..k] == run[..k];
        assert hash in Before(sys, run, k).store.sessions;
      }
      forall k | 0 <= k < n
        ensures !Issues(Before(sys, shorter, k), shorter[k], hash)
      {
        assert shorter[..k] == run[..k];
        assert !Issues(Before(sys, run, k), run[k], hash);
      }
      UsesStayFrozen(sys, shorter, hash, id);
      RevocationIsPermanent(sys, shorter, id);
      assert run[..|run|] == run;
      assert hash in Before(sys, run, |run|).store.sessions;
      assert !Issues(Before(sys, run, n), run[n], hash);
      UsesAreFrozen(After(sys, shorter), run[n], hash, id);
    }
  }

  /** An agent-path call that reloads a revoked agent is refused, whatever it had decided before. */
  lemma LaterReloadIsDenied(sys: System, run: seq<Action>, k: nat, i: nat, id: string)
    requires Keyed(sys.store) && Revoked(sys.store, id)
    requires k < |run| && run[k] == Reload(i)
    requires At(Before(sys, run, k), i)
    requires var u := Before(sys, run, k).uses[i];
             u.stage.Reloading? && u.stage.agent.id == id
    ensures At(Before(sys, run, k + 1), i)
    ensures Before(sys, run, k + 1).uses[i].stage.Reporting?
    ensures Before(sys, run, k + 1).uses[i].stage.refusal == Refuse("agent_revoked")
  {
    RevocationIsPermanent(sys, run[..k], id);
    BeforeNext(sys, run, k);
  }

  /**
   Where an agent-token call for a revoked agent can stand: before its commit,
   or answered with a refusal.
   */
  predicate Harmless(u: Use, id: string) {
    && (u.caller.ByAgent? ==> u.caller.principal.id == id)
    && match u.stage
       case Started => true
       case Reloading(agent, _, _) => u.caller.ByAgent? && agent.id == id
       case Reporting(_, refusal) => refusal.decision != Allow
       case Finished(outcome) => outcome.Unauthorized? || (outcome.Answer? && outcome.result.decision != Allow)
       case _ => false
  }

  lemma HarmlessMove(sys: System, a: Action, i: nat, id: string)
    requires Keyed(sys.store) && Revoked(sys.store, id) && id != ""
    requires At(sys, i) && Harmless(sys.uses[i], id) && sys.uses[i].caller.ByAgent?
    requires IsUseStep(a) && a.i == i
    ensures At(StepUse(sys, i, a), i) && Harmless(StepUse(sys, i, a).uses[i], id)
    ensures StepUse(sys, i, a).uses[i].caller == sys.uses[i].caller
  {
    hide Consume, SessionAuthorization, AfterRelease;
  }

  lemma HarmlessStep(sys: System, a: Action, i: nat, id: string)
    requires Keyed(sys.store) && Revoked(sys.store, id) && id != ""
    requires At(sys, i) && Harmless(sys.uses[i], id) && sys.uses[i].caller.ByAgent?
    ensures At(Step(sys, a), i) && Harmless(Step(sys, a).uses[i], id)
    ensures Step(sys, a).uses[i].caller == sys.uses[i].caller
  {
    hide StepOwner, StepUse;
    OwnerStepKeeps(sys, a);
    if IsUseStep(a) && At(sys, a.i) {
      UseStepKeeps(sys, a);
      if a.i == i {
        HarmlessMove(sys, a, i, id);
      }
    }
  }

  /** Every agent-token call for a revoked agent ends refused and never reads. */
  lemma {:induction false} LaterUseIsRefused(sys: System, run: seq<Action>, i: nat, id: string)
    requires Keyed(sys.store) && Revoked(sys.store, id) && id != ""
    requires At(sys, i) && sys.uses[i].stage.Started?
    requires sys.uses[i].caller.ByAgent? && sys.uses[i].caller.principal.id == id
    ensures Keyed(After(sys, run).store)
    ensures At(After(sys, run), i) && Harmless(After(sys, run).uses[i], id)
    ensures After(sys, run).uses[i].caller == sys.uses[i].caller
  {
    if run != [] {
      var shorter := run[..|run| - 1];
      LaterUseIsRefused(sys, shorter, i, id);
      RevocationIsPermanent(sys, shorter, id);
      KeyedStep(After(sys, shorter), run[|run| - 1]);
      HarmlessStep(After(sys, shorter), run[|run| - 1], i, id);
    }
  }

  // ---- sessions revoked one by one ----

  /** A session that is not there, or is revoked. */
  predicate Ended(s: State, hash: Hash) {
    hash in s.sessions ==> s.sessions[hash].revokedAt.Some?
  }

  /** Ending a session that the store knows revokes the very one the id leads to, now, and touches no other. */
  lemma EndSessionRevokes(sys: System, id: string, at: Time)
    requires Knows(sys.store, id)
    ensures var h, t := Locate(sys.store, id), Step(sys, EndSession(id, at)).store;
            && h in t.sessions && t.sessions[h].id == id
            && t.sessions[h].revokedAt ==
               (if sys.store.sessions[h].revokedAt.Some? then sys.store.sessions[h].revokedAt else Some(at))
            && t.sessions.Keys == sys.store.sessions.Keys
            && forall g :: g in t.sessions && g != h ==> t.sessions[g] == sys.store.sessions[g]
  {
  }

  lemma EndedStep(sys: System, a: Action, hash: Hash)
    requires Ended(sys.store, hash) && !Issues(sys, a, hash)
    ensures Ended(Step(sys, a).store, hash) && !CommitsOn(sys, a, hash)
  {
    hide Step;
    if hash in Step(sys, a).store.sessions {
      StepKeepsSessions(sys, a, hash);
    }
    EndedNeverCommits(sys, a, hash);
  }

  lemma EndedNeverCommits(sys: System, a: Action, hash: Hash)
    requires Ended(sys.store, hash)
    ensures !CommitsOn(sys, a, hash)
  {
  }

  lemma EndedIsUnauthorized(s: State, hash: Hash, request: Request, now: Time)
    requires Ended(s, hash)
    ensures AfterSnapshot(s, Use(BySession(hash), request, now, Started)) == Finished(Unauthorized)
  {
  }

  /**
   And it stays ended over every run in which no new session is issued under its token: no use of it is ever
   committed again, and every call that comes with it is unauthorized, whatever it asks and whatever its clock.
   */
  lemma {:induction false} EndedForGood(sys: System, run: seq<Action>, hash: Hash)
    requires Ended(sys.store, hash)
    requires forall k :: 0 <= k < |run| ==> !Issues(Before(sys, run, k), run[k], hash)
    ensures Ended(After(sys, run).store, hash)
    ensures forall k :: 0 <= k < |run| ==> !CommitsOn(Before(sys, run, k), run[k], hash)
    ensures forall request, now ::
              AfterSnapshot(After(sys, run).store, Use(BySession(hash), request, now, Started)) == Finished(Unauthorized)
  {
    hide Step, Issues, CommitsOn, Ended, AfterSnapshot;
    if run != [] {
      var n := |run| - 1;
      var shorter := run[..n];
      assert forall k :: 0 <= k < n ==> shorter[k] == run[k] && shorter[..k] == run[..k];
      forall k | 0 <= k < n
        ensures !Issues(Before(sys, shorter, k), shorter[k], hash)
      {
        assert !Issues(Before(sys, run, k), run[k], hash);
      }
      EndedForGood(sys, shorter, hash);
      assert !Issues(Before(sys, run, n), run[n], hash);
      EndedStep(After(sys, shorter), run[n], hash);
      forall k | 0 <= k < n
        ensures !CommitsOn(Before(sys, run, k), run[k], hash)
      {
        assert !CommitsOn(Before(sys, shorter, k), shorter[k], hash);
      }
    }
    forall request, now
      ensures AfterSnapshot(After(sys, run).store, Use(BySession(hash), request, now, Started)) == Finished(Unauthorized)
    {
      EndedIsUnauthorized(After(sys, run).store, hash, request, now);
    }
  }

  // ---- issuing sessions and grants ----

  function PendingFor(p: Pending): string {
    match p
    case NewSession(_, agentId, _, _) => agentId
    case NewGrant(g) => g.agentId
  }

  /** The owner's calls that have checked this agent and not written yet. */
  function InFlight(sys: System, id: string): set<nat> {
    set j | j in sys.pending && PendingFor(sys.pending[j]) == id
  }

  /** The step writes a session or grant for the agent. */
  predicate IssuesFor(sys: System, a: Action, id: string) {
    && (a.IssueSession? || a.IssueGrant?)
    && a.j in sys.pending
    && PendingFor(sys.pending[a.j]) == id
    && (sys.pending[a.j].NewSession? <==> a.IssueSession?)
  }

  lemma InFlightOnlyShrinks(sys: System, a: Action, id: string)
    requires Keyed(sys.store) && Revoked(sys.store, id)
    ensures InFlight(Step(sys, a), id) <= InFlight(sys, id)
    ensures IssuesFor(sys, a, id) ==> InFlight(Step(sys, a), id) < InFlight(sys, id)
  {
    hide StepUse;
    if IsUseStep(a) && At(sys, a.i) {
      UseStepKeeps(sys, a);
    }
    if IssuesFor(sys, a, id) {
      assert a.j in InFlight(sys, id) && a.j !in InFlight(Step(sys, a), id);
    }
  }

  ghost function Issued(sys: System, run: seq<Action>, id: string): nat {
    if run == [] then 0
    else
      Issued(sys, run[..|run| - 1], id) +
      (if IssuesFor(After(sys, run[..|run| - 1]), run[|run| - 1], id) then 1 else 0)
  }

  /**
   After the revocation, at most the checks then in flight can still write; with none in
   flight, no session and no grant is ever issued to the agent again.
   */
  lemma {:induction false} IssuedAreInFlight(sys: System, run: seq<Action>, id: string)
    requires Keyed(sys.store) && Revoked(sys.store, id)
    ensures Issued(sys, run, id) + |InFlight(After(sys, run), id)| <= |InFlight(sys, id)|
    ensures Keyed(After(sys, run).store)
  {
    if run != [] {
      var shorter, a := run[..|run| - 1], run[|run| - 1];
      var before := After(sys, shorter);
      IssuedAreInFlight(sys, shorter, id);
      RevocationIsPermanent(sys, shorter, id);
      KeyedStep(before, a);
      InFlightOnlyShrinks(before, a, id);
      Smaller(InFlight(Step(before, a), id), InFlight(before, id));
    }
  }

  lemma Smaller(s: set<nat>, t: set<nat>)
    requires s <= t
    ensures |s| <= |t|
    ensures s != t ==> |s| < |t|
  {
    assert t == s + (t - s);
  }

  /** Exactly when the promise holds: some run after the revocation issues to the agent iff a check was in flight. */
  lemma IssuedIffInFlight(sys: System, id: string)
    requires Keyed(sys.store) && Revoked(sys.store, id)
    ensures InFlight(sys, id) != {} <==> exists run :: Issued(sys, run, id) > 0
  {
    if InFlight(sys, id) != {} {
      var j :| j in InFlight(sys, id);
      var a := if sys.pending[j].NewSession? then IssueSession(j, "", "", 0) else IssueGrant(j);
      assert [a][..0] == [];
      assert After(sys, []) == sys;
      assert Issued(sys, [a], id) == 1;
    }
    forall run | InFlight(sys, id) == {}
      ensures Issued(sys, run, id) == 0
    {
      IssuedAreInFlight(sys, run, id);
    }
  }

  /**
   The window is real, from every state that passes the check: revoke after it and before the write, and the
   store takes on a session of a revoked agent.
   */
  lemma IssueAfterRevoke(sys: System, check: Action, kill: Action, issue: Action)
    requires check.CheckSessionRequest? && check.j !in sys.pending
    requires SessionRequestOk(sys.store, check.owns, check.agentId, check.ttl, check.maxUses)
    requires sys.store.agents[check.agentId].id == check.agentId
    requires kill.KillAgent? && kill.id == check.agentId && issue.IssueSession? && issue.j == check.j
    ensures var late := Step(Step(Step(sys, check), kill), issue);
            && Revoked(Step(Step(sys, check), kill).store, check.agentId)
            && Step(Step(sys, check), kill).store.sessions == sys.store.sessions
            && issue.hash in late.store.sessions
            && late.store.sessions[issue.hash].agentId == check.agentId
            && Revoked(late.store, check.agentId)
  {
  }

  /** And such a state is near: any agent that is not yet revoked will do. */
  lemma SessionForRevokedAgent(p: Principal, issue: Action)
    requires p.revokedAt.None? && issue.IssueSession?
    ensures var sys := System(PutAgent(EMPTY, p), map[], map[]);
            var check := CheckSessionRequest(issue.j, true, p.orgId, p.id, 0, 0);
            var late := Step(Step(Step(sys, check), KillAgent(p.id, 1, [])), issue);
            && Revoked(late.store, p.id) && issue.hash in late.store.sessions
            && late.store.sessions[issue.hash].agentId == p.id
  {
    hide Step;
    var sys := System(PutAgent(EMPTY, p), map[], map[]);
    IssueAfterRevoke(sys, CheckSessionRequest(issue.j, true, p.orgId, p.id, 0, 0), KillAgent(p.id, 1, []), issue);
  }

  /** Such a session authorizes nothing: at any time, its uses are refused at the decision and at the commit. */
  lemma LateSessionIsDead(s: State, hash: Hash, request: Request, now: Time, id: string, row: AuditEvent)
    requires Keyed(s) && Revoked(s, id) && id != ""
    requires hash in s.sessions && s.sessions[hash].agentId == id
    ensures Consume(s, hash, now, row) == (s, Consume(s, hash, now, row).1) && Consume(s, hash, now, row).1.Err?
    ensures var stage := AfterSnapshot(s, Use(BySession(hash), request, now, Started));
            stage == Finished(Unauthorized) || (stage.Reporting? && stage.refusal.decision == Deny)
  {
  }

  /** Nor does such a grant: the decision is a refusal for every request. */
  lemma LateGrantIsDead(s: State, g: Grant, request: Request, now: Time, id: string)
    requires Keyed(s) && Revoked(s, id) && id != ""
    requires (id, request.itemId) in s.grants && s.grants[(id, request.itemId)] == g
    ensures var u := Use(ByAgent(s.agents[id]), request, now, Started);
            var stage := AfterSnapshot(s, u);
            if stage.Reloading? then AfterReload(s, u.(stage := stage)).Reporting? else stage.Reporting?
  {
  }
}
