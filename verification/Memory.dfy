/**
 The in-memory store as the object it is: maps updated in place under one mutex.
 Every method is proved against the function of the same name in `Stores`.
 A map is walked in no particular order, so scans by id promise only that
 some matching entry was met.
 */
module MemoryStore {
  import opened Protocol
  import opened Stores

  datatype SweepReport = SweepReport(sessions: int, grants: int, approvals: int)

  class Memory {
    var agents: map<string, Principal>
    var items: map<string, Item>
    var secrets: map<string, Secret>
    var grants: map<(string, string), Grant>
    var approvals: map<string, Approval>
    var audit: seq<AuditEvent>
    var sessions: map<Hash, Session>
    var versions: seq<Version>
    var versionSecrets: map<int, Secret>
    var lastVersion: int

    /** Everything the store holds. */
    ghost function Contents(): State
      reads this
    {
      State(agents, Shelf(items, secrets, versions, versionSecrets, lastVersion), grants, approvals, audit, sessions)
    }

    constructor ()
      ensures Contents() == EMPTY
    {
      agents, items, secrets, grants, approvals := map[], map[], map[], map[], map[];
      audit, sessions, versions, versionSecrets, lastVersion := [], map[], [], map[], 0;
    }

    method PutAgent(p: Principal)
      modifies this
      ensures Contents() == Stores.PutAgent(old(Contents()), p)
    {
      var stored := p;
      if p.id in agents && p.revokedAt.None? {
        stored := p.(revokedAt := agents[p.id].revokedAt);
      }
      agents := agents[p.id := stored];
    }

    method Agent(id: string) returns (r: Result<Principal, StoreError>)
      ensures r == if id in agents then Ok(agents[id]) else Err(NotFound)
    {
      if id !in agents {
        return Err(NotFound);
      }
      return Ok(agents[id]);
    }

    method RevokeAgent(id: string, at: Time, rows: seq<AuditEvent>) returns (r: Result<(), StoreError>)
      modifies this
      ensures (Contents(), r) == Stores.RevokeAgent(old(Contents()), id, at, rows)
    {
      if id !in agents {
        return Err(NotFound);
      }
      var p := agents[id];
      if p.revokedAt.None? {
        agents := agents[id := p.(revokedAt := Some(at))];
      }
      audit := audit + rows;
      return Ok(());
    }

    method FileCurrent(itemId: string)
      modifies this
      ensures Contents() == old(Contents()).(shelf := Snapshot(old(Contents()).shelf, itemId))
    {
      if itemId in secrets {
        lastVersion := lastVersion + 1;
        versionSecrets := versionSecrets[lastVersion := secrets[itemId]];
        versions := versions + [Version(lastVersion, itemId)];
      }
    }

    method PutItem(item: Item, secret: Secret)
      modifies this
      ensures Contents() == old(Contents()).(shelf := Stores.PutItem(old(Contents()).shelf, item, secret))
    {
      FileCurrent(item.id);
      items := items[item.id := item];
      secrets := secrets[item.id := secret];
    }

    method ArchiveItem(id: string) returns (r: Result<(), StoreError>)
      modifies this
      ensures var done := Stores.ArchiveItem(old(Contents()).shelf, id);
              Contents() == old(Contents()).(shelf := done.0) && r == done.1
    {
      if id !in items {
        return Err(NotFound);
      }
      items := items[id := items[id].(archived := true)];
      return Ok(());
    }

    method DeleteItem(id: string) returns (r: Result<(), StoreError>)
      modifies this
      ensures (Contents(), r) == Stores.DeleteItem(old(Contents()), id)
    {
      if id !in items {
        return Err(NotFound);
      }
      items := items - {id};
      secrets := secrets - {id};
      DropGrants(id);
      FilterVersions(id);
      return Ok(());
    }

    method DropGrants(itemId: string)
      modifies this`grants
      ensures grants == map k | k in old(grants) && old(grants)[k].itemId != itemId :: old(grants)[k]
    {
      var todo := grants.Keys;
      while todo != {}
        invariant todo <= old(grants).Keys
        invariant grants ==
                  map k | k in old(grants) && (k in todo || old(grants)[k].itemId != itemId) :: old(grants)[k]
      {
        var k :| k in todo;
        todo := todo - {k};
        if grants[k].itemId == itemId {
          grants := grants - {k};
        }
      }
    }

    /** Keeps the other items' versions in order and drops the secrets of this item's. */
    method FilterVersions(itemId: string)
      modifies this`versions, this`versionSecrets
      ensures versions == WithoutItem(old(versions), itemId)
      ensures versionSecrets == old(versionSecrets) - VersionIds(old(versions), itemId)
    {
      hide WithoutItem, VersionIds;
      var all := versions;
      var kept := [];
      NoVersions(itemId);
      for i := 0 to |all|
        invariant kept == WithoutItem(all[..i], itemId)
        invariant versionSecrets == old(versionSecrets) - VersionIds(all[..i], itemId)
      {
        OneVersionMore(all, i, itemId);
        if all[i].itemId == itemId {
          versionSecrets := versionSecrets - {all[i].id};
        } else {
          kept := kept + [all[i]];
        }
      }
      assert all[..|all|] == all;
      versions := kept;
    }

    method RestoreVersion(itemId: string, versionId: int) returns (r: Result<(), StoreError>)
      modifies this
      ensures var done := Stores.RestoreVersion(old(Contents()).shelf, itemId, versionId);
              Contents() == old(Contents()).(shelf := done.0) && r == done.1
    {
      if itemId !in items || versionId !in versionSecrets {
        return Err(NotFound);
      }
      var secret := versionSecrets[versionId];
      var found := false;
      for i := 0 to |versions|
        invariant found <==> Version(versionId, itemId) in versions[..i]
      {
        assert versions[..i + 1] == versions[..i] + [versions[i]];
        if versions[i] == Version(versionId, itemId) {
          found := true;
        }
      }
      assert versions[..|versions|] == versions;
      if !found {
        return Err(NotFound);
      }
      FileCurrent(itemId);
      secrets := secrets[itemId := secret];
      return Ok(());
    }

    method Secret(id: string) returns (r: Result<Secret, StoreError>)
      ensures r == ReadSecret(Contents().shelf, id)
    {
      if id !in secrets {
        return Err(NotFound);
      }
      return Ok(secrets[id]);
    }

    method PutGrant(g: Grant)
      modifies this
      ensures Contents() == Stores.PutGrant(old(Contents()), g)
    {
      grants := grants[(g.agentId, g.itemId) := g];
    }

    method PutApproval(a: Approval)
      modifies this
      ensures Contents() == Stores.PutApproval(old(Contents()), a)
    {
      approvals := approvals[a.grantId := a];
    }

    method UseAuth(agentId: string, itemId: string, now: Time) returns (r: UseAuth)
      ensures r == Authorization(Contents(), agentId, itemId, now)
    {
      r := Stores.UseAuth(NO_PRINCIPAL, NO_ITEM, None, None);
      if agentId in agents {
        r := r.(agent := agents[agentId]);
      }
      if itemId in items {
        r := r.(item := items[itemId]);
      }
      if (agentId, itemId) in grants {
        var g := grants[(agentId, itemId)];
        r := r.(grant := Some(g));
        if g.id in approvals && now < approvals[g.id].expiresAt {
          r := r.(approval := Some(approvals[g.id]));
        }
      }
    }

    method UseAuthSession(hash: Hash, itemId: string, now: Time) returns (r: Result<UseAuth, StoreError>)
      ensures r == SessionAuthorization(Contents(), hash, itemId, now)
    {
      if hash !in sessions {
        return Err(NotFound);
      }
      var sess := sessions[hash];
      if sess.revokedAt.Some? {
        return Err(SessionRevoked);
      }
      if !(now < sess.expiresAt) {
        return Err(SessionExpired);
      }
      if sess.maxUses > 0 && sess.uses >= sess.maxUses {
        return Err(Denied);
      }
      var auth := UseAuth(sess.agentId, itemId, now);
      return Ok(auth);
    }

    method ConsumeSessionAudited(hash: Hash, now: Time, row: AuditEvent) returns (r: Result<Principal, StoreError>)
      modifies this
      ensures (Contents(), r) == Consume(old(Contents()), hash, now, row)
    {
      if hash !in sessions {
        return Err(NotFound);
      }
      var sess := sessions[hash];
      if sess.revokedAt.Some? {
        return Err(SessionRevoked);
      }
      if !(now < sess.expiresAt) {
        return Err(SessionExpired);
      }
      if sess.maxUses > 0 && sess.uses >= sess.maxUses {
        return Err(Denied);
      }
      if sess.agentId !in agents || agents[sess.agentId].revokedAt.Some? {
        return Err(NotFound);
      }
      var a := agents[sess.agentId];
      sessions := sessions[hash := sess.(uses := sess.uses + 1)];
      audit := audit + [row.(orgId := a.orgId, agentId := a.id)];
      return Ok(a);
    }

    method PutSession(sess: Session, hash: Hash)
      modifies this
      ensures Contents() == Stores.PutSession(old(Contents()), sess, hash)
    {
      sessions := sessions[hash := sess];
    }

    /** Walks the sessions until one has the id. */
    method FindSession(id: string) returns (hash: Option<Hash>)
      ensures hash.Some? ==> HasId(Contents(), hash.value, id)
      ensures hash.None? ==> !Knows(Contents(), id)
    {
      var todo := sessions.Keys;
      while todo != {}
        invariant todo <= sessions.Keys
        invariant forall h :: h in sessions && h !in todo ==> sessions[h].id != id
      {
        var h :| h in todo;
        if sessions[h].id == id {
          return Some(h);
        }
        todo := todo - {h};
      }
      return None;
    }

    method RevokeSession(id: string, at: Time) returns (r: Result<(), StoreError>)
      modifies this
      ensures r.Err? ==> r.error == NotFound && !Knows(old(Contents()), id) && Contents() == old(Contents())
      ensures r.Ok? ==> exists h :: HasId(old(Contents()), h, id) && Contents() == RevokeAt(old(Contents()), h, at)
      ensures r.Ok? ==> exists h :: HasId(Contents(), h, id) && sessions[h].revokedAt.Some?
    {
      var found := FindSession(id);
      if found.None? {
        return Err(NotFound);
      }
      var h := found.value;
      assert HasId(Contents(), h, id);
      var sess := sessions[h];
      if sess.revokedAt.None? {
        sessions := sessions[h := sess.(revokedAt := Some(at))];
      }
      assert HasId(Contents(), h, id);
      return Ok(());
    }

    method RenewSession(id: string, at: Time) returns (r: Result<Session, StoreError>)
      modifies this
      ensures !Knows(old(Contents()), id) ==> r == Err(NotFound) && Contents() == old(Contents())
      ensures Knows(old(Contents()), id) ==>
                exists h :: HasId(old(Contents()), h, id) && (Contents(), r) == RenewAt(old(Contents()), h, at)
    {
      var found := FindSession(id);
      if found.None? {
        return Err(NotFound);
      }
      var h := found.value;
      assert HasId(Contents(), h, id);
      var sess := sessions[h];
      if sess.revokedAt.Some? {
        return Err(SessionRevoked);
      }
      if !(sess.expiresAt > at) {
        return Err(SessionExpired);
      }
      var longest := sess.createdAt + sess.maxTtl * SECOND;
      var next := sess.expiresAt + sess.ttl * SECOND;
      if next > longest {
        next := longest;
      }
      if !(next > sess.expiresAt) {
        next := sess.expiresAt;
      }
      sess := sess.(expiresAt := next, renewedAt := Some(at));
      sessions := sessions[h := sess];
      return Ok(sess);
    }

    method AppendAudits(rows: seq<AuditEvent>)
      modifies this
      ensures Contents() == Stores.AppendAudits(old(Contents()), rows)
    {
      audit := audit + rows;
    }

    /** Deletes exactly the terminally dead rows and counts them. */
    method Sweep(cut: Time) returns (report: SweepReport)
      modifies this
      ensures Contents() == Stores.Sweep(old(Contents()), cut)
      ensures report == SweepReport(|old(sessions)| - |sessions|, |old(grants)| - |grants|,
                                    |old(approvals)| - |approvals|)
    {
      var s := SweepSessions(cut);
      var g := SweepGrants(cut);
      var a := SweepApprovals(cut);
      return SweepReport(s, g, a);
    }

    method SweepSessions(cut: Time) returns (n: int)
      modifies this`sessions
      ensures sessions == Stores.Sweep(old(Contents()), cut).sessions
      ensures n == |old(sessions)| - |sessions|
    {
      n := 0;
      var todo := sessions.Keys;
      while todo != {}
        invariant todo <= old(sessions).Keys
        invariant sessions ==
                  map h | h in old(sessions) && (h in todo || !SessionSwept(old(sessions)[h], cut)) :: old(sessions)[h]
        invariant n == |old(sessions)| - |sessions|
      {
        var h :| h in todo;
        todo := todo - {h};
        if SessionSwept(sessions[h], cut) {
          Shrinks(sessions, h);
          sessions := sessions - {h};
          n := n + 1;
        }
      }
    }

    method SweepGrants(cut: Time) returns (n: int)
      modifies this`grants
      ensures grants == Stores.Sweep(old(Contents()), cut).grants
      ensures n == |old(grants)| - |grants|
    {
      n := 0;
      var todo := grants.Keys;
      while todo != {}
        invariant todo <= old(grants).Keys
        invariant grants ==
                  map k | k in old(grants) && (k in todo || !GrantSwept(old(grants)[k], cut)) :: old(grants)[k]
        invariant n == |old(grants)| - |grants|
      {
        var k :| k in todo;
        todo := todo - {k};
        if GrantSwept(grants[k], cut) {
          Shrinks(grants, k);
          grants := grants - {k};
          n := n + 1;
        }
      }
    }

    method SweepApprovals(cut: Time) returns (n: int)
      modifies this`approvals
      ensures approvals == Stores.Sweep(old(Contents()), cut).approvals
      ensures n == |old(approvals)| - |approvals|
    {
      n := 0;
      var todo := approvals.Keys;
      while todo != {}
        invariant todo <= old(approvals).Keys
        invariant approvals ==
                  map g | g in old(approvals) && (g in todo || !ApprovalSwept(old(approvals)[g], cut)) ::
                    old(approvals)[g]
        invariant n == |old(approvals)| - |approvals|
      {
        var g :| g in todo;
        todo := todo - {g};
        if ApprovalSwept(approvals[g], cut) {
          Shrinks(approvals, g);
          approvals := approvals - {g};
          n := n + 1;
        }
      }
    }
  }

  lemma NoVersions(itemId: string)
    ensures WithoutItem([], itemId) == [] && VersionIds([], itemId) == {}
  {
  }

  lemma OneVersionMore(all: seq<Version>, i: nat, itemId: string)
    requires i < |all|
    ensures var own := all[i].itemId == itemId;
            && WithoutItem(all[..i + 1], itemId) == WithoutItem(all[..i], itemId) + (if own then [] else [all[i]])
            && VersionIds(all[..i + 1], itemId) == VersionIds(all[..i], itemId) + (if own then {all[i].id} else {})
  {
    assert all[..i + 1][..i] == all[..i];
    assert all[..i + 1] == all[..i] + [all[i]];
    if all[i].itemId == itemId {
      assert all[i] in all[..i + 1];
    }
  }

  lemma Shrinks<K, V>(m: map<K, V>, k: K)
    requires k in m
    ensures |m - {k}| == |m| - 1
  {
    assert (m - {k}).Keys == m.Keys - {k};
  }
}
