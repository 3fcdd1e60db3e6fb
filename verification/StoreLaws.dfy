/**
 What the store's calls mean for one another, in terms of its rows: what is put is
 read back, what is filed can be restored, what is deleted is gone, and nothing else
 changes.
 */
module StoreLaws {
  import opened Protocol
  import opened Stores

  // ---- agents ----

  /** An agent that is put is there as given, only its revocation outlives a put that names none. */
  lemma PutAgentKeeps(s: State, p: Principal, id: string)
    ensures var t := PutAgent(s, p);
            && t == s.(agents := t.agents)
            && p.id in t.agents && t.agents[p.id] == p.(revokedAt := t.agents[p.id].revokedAt)
            && t.agents[p.id].revokedAt ==
               (if p.revokedAt.None? && p.id in s.agents then s.agents[p.id].revokedAt else p.revokedAt)
            && (id != p.id ==> (id in t.agents <==> id in s.agents) && (id in s.agents ==> t.agents[id] == s.agents[id]))
  {
  }

  /** Revoking stamps the agent once, files the rows and touches nobody else; an unknown agent changes nothing. */
  lemma RevokeAgentStamps(s: State, id: string, at: Time, rows: seq<AuditEvent>, other: string)
    ensures RevokeAgent(s, id, at, rows).1 == (if id in s.agents then Ok(()) else Err(NotFound))
    ensures id !in s.agents ==> RevokeAgent(s, id, at, rows).0 == s
    ensures id in s.agents ==>
              var t := RevokeAgent(s, id, at, rows).0;
              && t == s.(agents := t.agents, audit := s.audit + rows)
              && id in t.agents && t.agents[id] == s.agents[id].(revokedAt := t.agents[id].revokedAt)
              && t.agents[id].revokedAt ==
                 (if s.agents[id].revokedAt.Some? then s.agents[id].revokedAt else Some(at))
              && t.agents.Keys == s.agents.Keys
              && (other in s.agents && other != id ==> t.agents[other] == s.agents[other])
  {
  }

  // ---- items and their history ----

  /** Version numbers are those given out so far, each with its secret. */
  predicate Numbered(s: Shelf) {
    && (forall v :: v in s.versions ==> v.id in s.versionSecrets)
    && (forall n :: n in s.versionSecrets ==> n <= s.lastVersion)
    && Ascending(s.versions)
  }

  predicate Ascending(versions: seq<Version>) {
    forall i, j :: 0 <= i < j < |versions| ==> versions[i].id < versions[j].id
  }

  lemma PutStaysNumbered(s: Shelf, item: Item, secret: Secret)
    requires Numbered(s)
    ensures Numbered(PutItem(s, item, secret))
  {
  }

  lemma RestoreStaysNumbered(s: Shelf, id: string, version: int)
    requires Numbered(s)
    ensures Numbered(RestoreVersion(s, id, version).0)
  {
  }

  lemma {:induction false} OthersStayOrdered(versions: seq<Version>, itemId: string)
    requires Ascending(versions)
    ensures Ascending(WithoutItem(versions, itemId))
  {
    if versions != [] {
      var n := |versions| - 1;
      var front, last := WithoutItem(versions[..n], itemId), versions[n];
      OthersStayOrdered(versions[..n], itemId);
      forall v | v in front
        ensures v.id < last.id
      {
        assert v in versions[..n];
      }
      LargestLast(front, last);
    }
  }

  lemma LargestLast(front: seq<Version>, last: Version)
    requires Ascending(front) && forall v :: v in front ==> v.id < last.id
    ensures Ascending(front + [last])
  {
    forall i, j | 0 <= i < j < |front| + 1
      ensures (front + [last])[i].id < (front + [last])[j].id
    {
      assert front[i] in front;
    }
  }

  lemma TakeOffStaysNumbered(s: Shelf, id: string)
    requires Numbered(s)
    ensures Numbered(TakeOff(s, id))
  {
    OthersStayOrdered(s.versions, id);
    forall v | v in TakeOff(s, id).versions
      ensures v.id !in VersionIds(s.versions, id)
    {
      assert v in s.versions && v.itemId != id;
      var i: nat :| i < |s.versions| && s.versions[i] == v;
      forall w | w in s.versions && w.itemId == id
        ensures w.id != v.id
      {
        var j: nat :| j < |s.versions| && s.versions[j] == w;
      }
    }
  }

  /** A put is read back; the secret it replaced is filed under the next number, as that item's, and nothing else moves. */
  lemma PutIsRead(s: Shelf, item: Item, secret: Secret, other: string)
    requires Numbered(s)
    ensures var t := PutItem(s, item, secret);
            && ReadSecret(t, item.id) == Ok(secret) && item.id in t.items && t.items[item.id] == item
            && (other != item.id ==> ReadSecret(t, other) == ReadSecret(s, other))
            && (other != item.id && other in s.items ==> other in t.items && t.items[other] == s.items[other])
            && (if item.id in s.secrets then
                  && t.lastVersion == s.lastVersion + 1 && t.lastVersion !in s.versionSecrets
                  && t.versions == s.versions + [Version(t.lastVersion, item.id)]
                  && t.lastVersion in t.versionSecrets && t.versionSecrets[t.lastVersion] == s.secrets[item.id]
                  && (forall n :: n in s.versionSecrets ==> n in t.versionSecrets && t.versionSecrets[n] == s.versionSecrets[n])
                else
                  t.versions == s.versions && t.versionSecrets == s.versionSecrets && t.lastVersion == s.lastVersion)
  {
  }

  /** A restore succeeds exactly for a version of the item itself, brings back its secret, and files the one it replaced. */
  lemma RestoreIsRead(s: Shelf, id: string, version: int)
    requires Numbered(s)
    ensures RestoreVersion(s, id, version).1.Ok? <==> id in s.items && Version(version, id) in s.versions
    ensures RestoreVersion(s, id, version).1.Err? ==>
              RestoreVersion(s, id, version) == (s, Err(NotFound))
    ensures RestoreVersion(s, id, version).1.Ok? ==>
              var t := RestoreVersion(s, id, version).0;
              && ReadSecret(t, id) == Ok(s.versionSecrets[version]) && t.items == s.items
              && (id in s.secrets ==>
                    && Version(t.lastVersion, id) in t.versions && t.lastVersion in t.versionSecrets
                    && t.versionSecrets[t.lastVersion] == s.secrets[id])
              && forall n :: n in s.versionSecrets ==> n in t.versionSecrets && t.versionSecrets[n] == s.versionSecrets[n]
  {
  }

  /** Restoring the version a put or restore just filed brings back what was there before it. */
  lemma NewestUndoesPut(s: Shelf, item: Item, secret: Secret)
    requires Numbered(s) && item.id in s.secrets
    ensures var t := PutItem(s, item, secret);
            ReadSecret(RestoreVersion(t, item.id, t.lastVersion).0, item.id) == ReadSecret(s, item.id)
  {
    var t := PutItem(s, item, secret);
    PutStaysNumbered(s, item, secret);
    assert t.versions[|s.versions|] == Version(t.lastVersion, item.id);
    RestoreIsRead(t, item.id, t.lastVersion);
  }

  lemma ArchiveMarks(s: Shelf, id: string, other: string)
    ensures ArchiveItem(s, id).1 == (if id in s.items then Ok(()) else Err(NotFound))
    ensures id !in s.items ==> ArchiveItem(s, id).0 == s
    ensures id in s.items ==>
              var t := ArchiveItem(s, id).0;
              && t == s.(items := t.items) && t.items.Keys == s.items.Keys
              && t.items[id] == s.items[id].(archived := true)
              && (other in s.items && other != id ==> t.items[other] == s.items[other])
  {
  }

  /** Deleting takes the item, its secret, its history and its grants, and nothing of anything else; numbers go on from where they were. */
  lemma DeleteTakesAll(s: State, id: string)
    ensures DeleteItem(s, id).1 == (if id in s.shelf.items then Ok(()) else Err(NotFound))
    ensures id !in s.shelf.items ==> DeleteItem(s, id).0 == s
    ensures id in s.shelf.items ==>
              var t := DeleteItem(s, id).0;
              && t == s.(shelf := t.shelf, grants := t.grants)
              && t.shelf.items.Keys == s.shelf.items.Keys - {id} && ReadSecret(t.shelf, id) == Err(NotFound)
              && (forall v :: v in t.shelf.versions <==> v in s.shelf.versions && v.itemId != id)
              && (forall k :: k in t.grants <==> k in s.grants && s.grants[k].itemId != id)
              && (forall k :: k in t.grants ==> t.grants[k] == s.grants[k])
              && t.shelf.lastVersion == s.shelf.lastVersion
              && (forall i :: i in t.shelf.items ==> t.shelf.items[i] == s.shelf.items[i])
              && (forall i :: i != id ==> ReadSecret(t.shelf, i) == ReadSecret(s.shelf, i))
  {
  }

  /** The secrets of the versions that stay, stay. */
  lemma DeleteKeepsOthersHistory(s: Shelf, id: string, v: Version)
    requires Numbered(s) && v in s.versions && v.itemId != id
    ensures v.id in TakeOff(s, id).versionSecrets && TakeOff(s, id).versionSecrets[v.id] == s.versionSecrets[v.id]
  {
    TakeOffStaysNumbered(s, id);
    assert v in TakeOff(s, id).versions;
  }

  // ---- grants and approvals ----

  /** A grant that is put is the one authorization finds, for its agent and item and no other pair. */
  lemma PutGrantTakesEffect(s: State, g: Grant, agentId: string, itemId: string, now: Time)
    ensures var t := PutGrant(s, g);
            && t == s.(grants := t.grants)
            && Authorization(t, g.agentId, g.itemId, now).grant == Some(g)
            && ((agentId, itemId) != (g.agentId, g.itemId) ==>
                  Authorization(t, agentId, itemId, now) == Authorization(s, agentId, itemId, now))
  {
  }

  /** An approval that is put is found with its grant while it lasts, and not from its expiry on. */
  lemma PutApprovalTakesEffect(s: State, a: Approval, agentId: string, itemId: string, now: Time)
    requires (agentId, itemId) in s.grants
    ensures var t, g := PutApproval(s, a), s.grants[(agentId, itemId)];
            && t == s.(approvals := t.approvals)
            && (g.id == a.grantId ==>
                  Authorization(t, agentId, itemId, now).approval == if now < a.expiresAt then Some(a) else None)
            && (g.id != a.grantId ==> Authorization(t, agentId, itemId, now) == Authorization(s, agentId, itemId, now))
  {
  }

  /** An authorization is the stored agent and item, or empty ones, with the pair's grant and its approval while that lasts. */
  lemma AuthorizationReads(s: State, agentId: string, itemId: string, now: Time)
    ensures var a := Authorization(s, agentId, itemId, now);
            && (agentId in s.agents ==> a.agent == s.agents[agentId]) && (agentId !in s.agents ==> a.agent.id == "")
            && (itemId in s.shelf.items ==> a.item == s.shelf.items[itemId])
            && (itemId !in s.shelf.items ==> a.item.id == "")
            && (a.grant.Some? <==> (agentId, itemId) in s.grants)
            && (a.grant.Some? ==> a.grant.value == s.grants[(agentId, itemId)])
            && (a.approval.Some? <==>
                  a.grant.Some? && a.grant.value.id in s.approvals && now < s.approvals[a.grant.value.id].expiresAt)
            && (a.approval.Some? ==> a.approval.value == s.approvals[a.grant.value.id])
  {
  }

  // ---- sessions ----

  /** Usable exactly while not revoked, not expired and not used up; what is refused says which, revocation first. */
  lemma CheckSessionIff(s: State, hash: Hash, now: Time)
    ensures hash !in s.sessions ==> CheckSession(s, hash, now) == Err(NotFound)
    ensures hash in s.sessions ==>
              var sess := s.sessions[hash];
              CheckSession(s, hash, now) ==
              if sess.revokedAt != None then Err(SessionRevoked)
              else if sess.expiresAt <= now then Err(SessionExpired)
              else if 0 < sess.maxUses <= sess.uses then Err(Denied)
              else Ok(sess)
    ensures hash in s.sessions ==> (Live(s.sessions[hash], now) <==> CheckSession(s, hash, now).Ok?)
  {
  }

  /** One use: all of it, on a usable session of an agent that stands, or nothing. */
  lemma ConsumeIsAllOrNothing(s: State, hash: Hash, now: Time, row: AuditEvent)
    ensures var (t, r) := Consume(s, hash, now, row);
            if r.Err? then t == s
            else
              && hash in s.sessions && hash in t.sessions
              && (var sess := s.sessions[hash];
                  && sess.revokedAt == None && now < sess.expiresAt && !(0 < sess.maxUses <= sess.uses)
                  && sess.agentId in s.agents && s.agents[sess.agentId].revokedAt == None
                  && r.value == s.agents[sess.agentId]
                  && t.sessions[hash] == sess.(uses := sess.uses + 1) && t.sessions.Keys == s.sessions.Keys
                  && t.audit == s.audit + [row.(orgId := r.value.orgId, agentId := r.value.id)])
              && t == s.(sessions := t.sessions, audit := t.audit)
              && forall h :: h in s.sessions && h != hash ==> t.sessions[h] == s.sessions[h]
    ensures Consume(s, hash, now, row).1.Ok? <==>
            && CheckSession(s, hash, now).Ok?
            && s.sessions[hash].agentId in s.agents && s.agents[s.sessions[hash].agentId].revokedAt == None
  {
  }

  /** A renewal is refused exactly when the session is revoked or over; else it adds the lease up to the longest life, never less. */
  lemma RenewIff(s: State, hash: Hash, at: Time)
    requires hash in s.sessions
    ensures var (t, r) := RenewAt(s, hash, at);
            var sess := s.sessions[hash];
            && (r.Ok? <==> sess.revokedAt == None && at < sess.expiresAt)
            && (sess.revokedAt != None ==> r == Err(SessionRevoked))
            && (sess.revokedAt == None && sess.expiresAt <= at ==> r == Err(SessionExpired))
            && (r.Err? ==> t == s)
            && (r.Ok? ==>
                  && t.sessions.Keys == s.sessions.Keys && t == s.(sessions := t.sessions)
                  && r.value == t.sessions[hash]
                  && t.sessions[hash] == sess.(renewedAt := Some(at), expiresAt := t.sessions[hash].expiresAt)
                  && (forall h :: h in s.sessions && h != hash ==> t.sessions[h] == s.sessions[h])
                  && (var asked := sess.expiresAt + sess.ttl * 1_000_000_000;
                      var longest := sess.createdAt + sess.maxTtl * 1_000_000_000;
                      var expiry := t.sessions[hash].expiresAt;
                      && sess.expiresAt <= expiry && (expiry <= longest || expiry == sess.expiresAt)
                      && (sess.expiresAt <= asked <= longest ==> expiry == asked)
                      && (sess.expiresAt <= longest <= asked ==> expiry == longest)))
  {
  }

  // ---- sweeping ----

  /** Exactly which rows a sweep leaves; all it leaves is as it was. */
  lemma SweepLeaves(s: State, cut: Time)
    ensures var t := Sweep(s, cut);
            && t == s.(sessions := t.sessions, grants := t.grants, approvals := t.approvals)
            && (forall h :: h in t.sessions <==>
                  && h in s.sessions && cut <= s.sessions[h].expiresAt
                  && (s.sessions[h].revokedAt == None || cut <= s.sessions[h].revokedAt.value))
            && (forall k :: k in t.grants <==>
                  k in s.grants && (s.grants[k].expiresAt == None || cut <= s.grants[k].expiresAt.value))
            && (forall g :: g in t.approvals <==> g in s.approvals && cut <= s.approvals[g].expiresAt)
            && (forall h :: h in t.sessions ==> t.sessions[h] == s.sessions[h])
            && (forall k :: k in t.grants ==> t.grants[k] == s.grants[k])
            && (forall g :: g in t.approvals ==> t.approvals[g] == s.approvals[g])
  {
  }
}
