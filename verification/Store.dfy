/**
 What each call of the in-memory store does, as functions on the store's contents.
 One call is one step: the store holds its mutex throughout.
 */
module Stores {
  import opened Protocol

  datatype StoreError = NotFound | Denied | SessionExpired | SessionRevoked

  type Secret = string

  type Hash = string

  datatype Version = Version(id: int, itemId: string)

  /** The items, their current secrets, and the secrets they had before. */
  datatype Shelf = Shelf(
    items: map<string, Item>,
    secrets: map<string, Secret>,
    versions: seq<Version>,
    versionSecrets: map<int, Secret>,
    lastVersion: int)

  datatype State = State(
    agents: map<string, Principal>,
    shelf: Shelf,
    grants: map<(string, string), Grant>,
    approvals: map<string, Approval>,
    audit: seq<AuditEvent>,
    sessions: map<Hash, Session>)

  const EMPTY_SHELF := Shelf(map[], map[], [], map[], 0)

  const EMPTY := State(map[], EMPTY_SHELF, map[], map[], [], map[])

  datatype UseAuth = UseAuth(agent: Principal, item: Item, grant: Option<Grant>, approval: Option<Approval>)

  // ---- agents ----

  /** An upsert that never clears a revocation. */
  function PutAgent(s: State, p: Principal): State {
    var kept :=
      if p.id in s.agents && p.revokedAt.None? then p.(revokedAt := s.agents[p.id].revokedAt) else p;
    s.(agents := s.agents[p.id := kept])
  }

  function RevokeAgent(s: State, id: string, at: Time, audit: seq<AuditEvent>): (State, Result<(), StoreError>) {
    if id !in s.agents then (s, Err(NotFound))
    else
      var p := s.agents[id];
      var agents := if p.revokedAt.None? then s.agents[id := p.(revokedAt := Some(at))] else s.agents;
      (s.(agents := agents, audit := s.audit + audit), Ok(()))
  }

  predicate Revoked(s: State, id: string) {
    id in s.agents && s.agents[id].revokedAt.Some?
  }

  // ---- items and their history ----

  /** Files the current secret of an item, if it has one, as a new version. */
  function Snapshot(s: Shelf, itemId: string): Shelf {
    if itemId !in s.secrets then s
    else
      var id := s.lastVersion + 1;
      s.(lastVersion := id,
         versionSecrets := s.versionSecrets[id := s.secrets[itemId]],
         versions := s.versions + [Version(id, itemId)])
  }

  function PutItem(s: Shelf, item: Item, secret: Secret): Shelf {
    var t := Snapshot(s, item.id);
    t.(items := t.items[item.id := item], secrets := t.secrets[item.id := secret])
  }

  function ArchiveItem(s: Shelf, id: string): (Shelf, Result<(), StoreError>) {
    if id !in s.items then (s, Err(NotFound))
    else (s.(items := s.items[id := s.items[id].(archived := true)]), Ok(()))
  }

  function WithoutItem(versions: seq<Version>, itemId: string): (kept: seq<Version>)
    ensures forall v :: v in kept <==> v in versions && v.itemId != itemId
  {
    if versions == [] then []
    else
      var kept := WithoutItem(versions[..|versions| - 1], itemId);
      var last := versions[|versions| - 1];
      if last.itemId == itemId then kept else kept + [last]
  }

  function VersionIds(versions: seq<Version>, itemId: string): set<int> {
    set v | v in versions && v.itemId == itemId :: v.id
  }

  /** Drops an item with its whole history; version numbers are not taken back. */
  function TakeOff(s: Shelf, id: string): Shelf {
    Shelf(s.items - {id}, s.secrets - {id}, WithoutItem(s.versions, id),
          s.versionSecrets - VersionIds(s.versions, id), s.lastVersion)
  }

  function DeleteItem(s: State, id: string): (State, Result<(), StoreError>) {
    if id !in s.shelf.items then (s, Err(NotFound))
    else
      (s.(shelf := TakeOff(s.shelf, id),
          grants := map k | k in s.grants && s.grants[k].itemId != id :: s.grants[k]),
       Ok(()))
  }

  function RestoreVersion(s: Shelf, itemId: string, versionId: int): (Shelf, Result<(), StoreError>) {
    if itemId !in s.items || versionId !in s.versionSecrets || Version(versionId, itemId) !in s.versions
    then (s, Err(NotFound))
    else
      var t := Snapshot(s, itemId);
      (t.(secrets := t.secrets[itemId := s.versionSecrets[versionId]]), Ok(()))
  }

  function ReadSecret(s: Shelf, id: string): Result<Secret, StoreError> {
    if id in s.secrets then Ok(s.secrets[id]) else Err(NotFound)
  }

  // ---- authorization ----

  function PutGrant(s: State, g: Grant): State {
    s.(grants := s.grants[(g.agentId, g.itemId) := g])
  }

  function PutApproval(s: State, a: Approval): State {
    s.(approvals := s.approvals[a.grantId := a])
  }

  function Authorization(s: State, agentId: string, itemId: string, now: Time): UseAuth {
    var agent := if agentId in s.agents then s.agents[agentId] else NO_PRINCIPAL;
    var item := if itemId in s.shelf.items then s.shelf.items[itemId] else NO_ITEM;
    if (agentId, itemId) in s.grants then
      var g := s.grants[(agentId, itemId)];
      var approval :=
        if g.id in s.approvals && now < s.approvals[g.id].expiresAt then Some(s.approvals[g.id]) else None;
      UseAuth(agent, item, Some(g), approval)
    else UseAuth(agent, item, None, None)
  }

  // ---- sessions ----

  function PutSession(s: State, sess: Session, hash: Hash): State {
    s.(sessions := s.sessions[hash := sess])
  }

  /** Neither revoked, nor expired, nor used up. */
  predicate Live(sess: Session, now: Time) {
    sess.revokedAt.None? && now < sess.expiresAt && !Exhausted(sess)
  }

  predicate Exhausted(sess: Session) {
    sess.maxUses > 0 && sess.uses >= sess.maxUses
  }

  function CheckSession(s: State, hash: Hash, now: Time): Result<Session, StoreError> {
    if hash !in s.sessions then Err(NotFound)
    else
      var sess := s.sessions[hash];
      if sess.revokedAt.Some? then Err(SessionRevoked)
      else if now >= sess.expiresAt then Err(SessionExpired)
      else if Exhausted(sess) then Err(Denied)
      else Ok(sess)
  }

  function SessionAuthorization(s: State, hash: Hash, itemId: string, now: Time): Result<UseAuth, StoreError> {
    match CheckSession(s, hash, now)
    case Err(e) => Err(e)
    case Ok(sess) => Ok(Authorization(s, sess.agentId, itemId, now))
  }

  /** Checks again, counts one use and files the row, or does nothing at all. */
  function Consume(s: State, hash: Hash, now: Time, row: AuditEvent): (State, Result<Principal, StoreError>) {
    match CheckSession(s, hash, now)
    case Err(e) => (s, Err(e))
    case Ok(sess) =>
      if sess.agentId !in s.agents || s.agents[sess.agentId].revokedAt.Some? then (s, Err(NotFound))
      else
        var a := s.agents[sess.agentId];
        (s.(sessions := s.sessions[hash := sess.(uses := sess.uses + 1)],
            audit := s.audit + [row.(orgId := a.orgId, agentId := a.id)]),
         Ok(a))
  }

  predicate HasId(s: State, hash: Hash, id: string) {
    hash in s.sessions && s.sessions[hash].id == id
  }

  ghost predicate Knows(s: State, id: string) {
    exists hash :: HasId(s, hash, id)
  }

  /** The session the scan by id comes upon. */
  ghost function Locate(s: State, id: string): (hash: Hash)
    requires Knows(s, id)
    ensures HasId(s, hash, id)
  {
    var hash :| HasId(s, hash, id);
    hash
  }

  function Extended(sess: Session): Time {
    var longest := sess.createdAt + sess.maxTtl * SECOND;
    var next := sess.expiresAt + sess.ttl * SECOND;
    var capped := if next > longest then longest else next;
    if capped > sess.expiresAt then capped else sess.expiresAt
  }

  function RenewAt(s: State, hash: Hash, at: Time): (State, Result<Session, StoreError>)
    requires hash in s.sessions
  {
    var sess := s.sessions[hash];
    if sess.revokedAt.Some? then (s, Err(SessionRevoked))
    else if sess.expiresAt <= at then (s, Err(SessionExpired))
    else
      var renewed := sess.(expiresAt := Extended(sess), renewedAt := Some(at));
      (s.(sessions := s.sessions[hash := renewed]), Ok(renewed))
  }

  ghost function RenewSession(s: State, id: string, at: Time): (State, Result<Session, StoreError>) {
    if Knows(s, id) then RenewAt(s, Locate(s, id), at) else (s, Err(NotFound))
  }

  function RevokeAt(s: State, hash: Hash, at: Time): State
    requires hash in s.sessions
  {
    var sess := s.sessions[hash];
    if sess.revokedAt.Some? then s
    else s.(sessions := s.sessions[hash := sess.(revokedAt := Some(at))])
  }

  ghost function RevokeSession(s: State, id: string, at: Time): (State, Result<(), StoreError>) {
    if Knows(s, id) then (RevokeAt(s, Locate(s, id), at), Ok(())) else (s, Err(NotFound))
  }

  // ---- audit and sweeping ----

  function AppendAudits(s: State, rows: seq<AuditEvent>): State {
    s.(audit := s.audit + rows)
  }

  /** Terminally dead by the cutoff. */
  predicate SessionSwept(sess: Session, cut: Time) {
    sess.expiresAt < cut || (sess.revokedAt.Some? && sess.revokedAt.value < cut)
  }

  predicate GrantSwept(g: Grant, cut: Time) {
    g.expiresAt.Some? && g.expiresAt.value < cut
  }

  predicate ApprovalSwept(a: Approval, cut: Time) {
    a.expiresAt < cut
  }

  function Sweep(s: State, cut: Time): State {
    s.(sessions := map h | h in s.sessions && !SessionSwept(s.sessions[h], cut) :: s.sessions[h],
       grants := map k | k in s.grants && !GrantSwept(s.grants[k], cut) :: s.grants[k],
       approvals := map g | g in s.approvals && !ApprovalSwept(s.approvals[g], cut) :: s.approvals[g])
  }
}
