/**
 The session calls of the SQLite store: statements over rows that keep whole
 seconds, some in one transaction and some not. Where a call is one transaction it
 is proved to be the in-memory store's; a renewal is two statements, and is not.
 */
module SqliteSessions {
  import opened Protocol
  import opened Stores
  import opened UseSafety
  import opened Sweeping

  /** A time as it is stored: its whole seconds. */
  function Floor(t: Time): Time {
    t / SECOND * SECOND
  }

  predicate Whole(t: Time) {
    t % SECOND == 0
  }

  predicate WholeSession(sess: Session) {
    && sess.maxUses >= 0
    && Whole(sess.expiresAt) && Whole(sess.createdAt)
    && (sess.revokedAt.Some? ==> Whole(sess.revokedAt.value))
  }

  /** Every time in the tables was truncated when it was written, and no limit on uses is negative. */
  predicate WholeSeconds(s: State) {
    && (forall h :: h in s.sessions ==> WholeSession(s.sessions[h]))
    && (forall k :: k in s.grants && s.grants[k].expiresAt.Some? ==> Whole(s.grants[k].expiresAt.value))
    && (forall g :: g in s.approvals ==> Whole(s.approvals[g].expiresAt))
  }

  /** Against a stored time it makes no difference that the other side is truncated too. */
  lemma WholeSecondCompare(stored: Time, now: Time)
    requires Whole(stored)
    ensures stored > Floor(now) <==> stored > now
  {
  }

  function FloorOption(t: Option<Time>): Option<Time> {
    match t
    case None => None
    case Some(v) => Some(Floor(v))
  }

  function Stored(sess: Session): Session {
    sess.(expiresAt := Floor(sess.expiresAt), createdAt := Floor(sess.createdAt),
          revokedAt := FloorOption(sess.revokedAt), renewedAt := FloorOption(sess.renewedAt))
  }

  /** What is stored is the given session, each of its times brought back to a whole second less than one before it. */
  lemma StoredMeans(sess: Session)
    ensures var t := Stored(sess);
            && t == sess.(expiresAt := t.expiresAt, createdAt := t.createdAt, revokedAt := t.revokedAt,
                          renewedAt := t.renewedAt)
            && t.expiresAt % 1_000_000_000 == 0 && t.expiresAt <= sess.expiresAt < t.expiresAt + 1_000_000_000
            && t.createdAt % 1_000_000_000 == 0 && t.createdAt <= sess.createdAt < t.createdAt + 1_000_000_000
            && (t.revokedAt == None <==> sess.revokedAt == None)
            && (t.revokedAt != None ==>
                  && t.revokedAt.value % 1_000_000_000 == 0
                  && t.revokedAt.value <= sess.revokedAt.value < t.revokedAt.value + 1_000_000_000)
  {
  }

  /** Truncation is on the safe side, by less than a second: what the stored session allows the given one does. */
  lemma StoredIsStricter(sess: Session, now: Time)
    ensures Live(Stored(sess), now) ==> Live(sess, now)
    ensures Live(sess, now) && !Live(Stored(sess), now) ==> Floor(now) == Floor(sess.expiresAt)
  {
  }

  lemma StampedIsWhole(sess: Session, at: Time)
    requires WholeSession(sess)
    ensures WholeSession(sess.(revokedAt := Some(Floor(at))))
  {
  }

  lemma SameIdsStayUnique(before: map<Hash, Session>, after: map<Hash, Session>)
    requires UniqueIds(before) && after.Keys == before.Keys
    requires forall h :: h in after ==> after[h].id == before[h].id
    ensures UniqueIds(after)
  {
  }

  class Database {
    var db: State

    ghost predicate Valid()
      reads this
    {
      WholeSeconds(db)
    }

    constructor (db: State)
      requires WholeSeconds(db)
      ensures Valid() && this.db == db
    {
      this.db := db;
    }

    /** An upsert by id, on truncated times; a token hash taken by another session is refused. */
    method PutSession(sess: Session, hash: Hash) returns (ok: bool)
      requires Valid() && sess.maxUses >= 0 && UniqueIds(db.sessions)
      modifies this
      ensures Valid() && UniqueIds(db.sessions)
      ensures ok <==> !(hash in old(db).sessions && old(db).sessions[hash].id != sess.id)
      ensures !ok ==> db == old(db)
      ensures ok ==>
                var others := map h | h in old(db).sessions && old(db).sessions[h].id != sess.id :: old(db).sessions[h];
                db == old(db).(sessions := others[hash := Stored(sess)])
      ensures (forall h :: h in old(db).sessions ==> h != hash && old(db).sessions[h].id != sess.id) ==>
                db == Stores.PutSession(old(db), Stored(sess), hash)
    {
      if hash in db.sessions && db.sessions[hash].id != sess.id {
        return false;
      }
      var others := map h | h in db.sessions && db.sessions[h].id != sess.id :: db.sessions[h];
      if forall h :: h in db.sessions ==> h != hash && db.sessions[h].id != sess.id {
        assert others == db.sessions;
      }
      db := db.(sessions := others[hash := Stored(sess)]);
      return true;
    }

    /** One statement by id: stamps the session once, in whole seconds, or finds none. */
    method RevokeSession(id: string, at: Time) returns (ok: bool)
      requires Valid() && UniqueIds(db.sessions)
      modifies this
      ensures Valid() && UniqueIds(db.sessions)
      ensures ok <==> exists h :: h in old(db).sessions && old(db).sessions[h].id == id
      ensures db == old(db).(sessions := db.sessions) && db.sessions.Keys == old(db).sessions.Keys
      ensures forall h :: h in db.sessions ==>
                if old(db).sessions[h].id != id || old(db).sessions[h].revokedAt.Some?
                then db.sessions[h] == old(db).sessions[h]
                else db.sessions[h] == old(db).sessions[h].(revokedAt := Some(Floor(at)))
      ensures forall h :: h in db.sessions && db.sessions[h].id == id ==> db.sessions[h].revokedAt.Some?
    {
      hide UniqueIds, WholeSession;
      ok := exists h :: h in db.sessions && db.sessions[h].id == id;
      var stamped := map h | h in db.sessions ::
        if db.sessions[h].id == id && db.sessions[h].revokedAt.None?
        then db.sessions[h].(revokedAt := Some(Floor(at)))
        else db.sessions[h];
      forall h | h in stamped
        ensures WholeSession(stamped[h])
      {
        StampedIsWhole(db.sessions[h], at);
      }
      SameIdsStayUnique(db.sessions, stamped);
      db := db.(sessions := stamped);
    }

    /**
     One transaction: count the use, look the agent up, file the row. A transaction that does not reach its commit
     leaves no trace of the count; `filed` and `commits` are whether the insert and the commit go through.
     */
    method ConsumeSessionAudited(hash: Hash, now: Time, row: AuditEvent, filed: bool, commits: bool)
      returns (r: Result<Principal, StoreError>)
      requires Valid()
      modifies this
      ensures Valid()
      ensures r.Ok? <==> filed && commits && Consume(old(db), hash, now, row).1.Ok?
      ensures r.Ok? ==> db == Consume(old(db), hash, now, row).0 && r == Consume(old(db), hash, now, row).1
      ensures r.Err? ==> db == old(db)
    {
      var tx := db;
      if hash !in tx.sessions {
        return Err(NotFound);
      }
      var sess := tx.sessions[hash];
      WholeSecondCompare(sess.expiresAt, now);
      if !(sess.expiresAt > Floor(now) && sess.revokedAt.None? && (sess.maxUses == 0 || sess.uses < sess.maxUses)) {
        return Err(NotFound);
      }
      tx := tx.(sessions := tx.sessions[hash := sess.(uses := sess.uses + 1)]);
      if sess.agentId !in tx.agents || tx.agents[sess.agentId].revokedAt.Some? {
        return Err(NotFound);
      }
      var agent := tx.agents[sess.agentId];
      if !filed {
        return Err(Denied);
      }
      tx := tx.(audit := tx.audit + [row.(orgId := agent.orgId, agentId := agent.id)]);
      if !commits {
        return Err(Denied);
      }
      db := tx;
      return Ok(agent);
    }

    /** The joined query; a session or an agent that is not there is simply no row. */
    method UseAuthSession(hash: Hash, itemId: string, now: Time) returns (r: Option<UseAuth>)
      requires Valid()
      ensures r.Some? <==>
                CheckSession(db, hash, now).Ok? && db.sessions[hash].agentId in db.agents &&
                db.agents[db.sessions[hash].agentId].id != ""
      ensures r.Some? ==>
                var a := SessionAuthorization(db, hash, itemId, now).value;
                && r.value.agent == a.agent && r.value.item == a.item
                && (itemId in db.shelf.items ==> r.value == a)
    {
      if hash !in db.sessions {
        return None;
      }
      var sess := db.sessions[hash];
      WholeSecondCompare(sess.expiresAt, now);
      if !(sess.expiresAt > Floor(now) && sess.revokedAt.None? && (sess.maxUses == 0 || sess.uses < sess.maxUses)) {
        return None;
      }
      if sess.agentId !in db.agents || db.agents[sess.agentId].id == "" {
        return None;
      }
      var agent := db.agents[sess.agentId];
      if itemId !in db.shelf.items {
        return Some(UseAuth(agent, NO_ITEM, None, None));
      }
      var item := db.shelf.items[itemId];
      if (sess.agentId, itemId) !in db.grants {
        return Some(UseAuth(agent, item, None, None));
      }
      var g := db.grants[(sess.agentId, itemId)];
      if g.id in db.approvals {
        WholeSecondCompare(db.approvals[g.id].expiresAt, now);
        if db.approvals[g.id].expiresAt > Floor(now) {
          return Some(UseAuth(agent, item, Some(g), Some(db.approvals[g.id])));
        }
      }
      return Some(UseAuth(agent, item, Some(g), None));
    }

    /** Three statements, each of which may fail; `done` is how many went through. */
    method Sweep(before: Time, done: nat) returns (ok: bool)
      requires Valid()
      modifies this
      ensures Valid()
      ensures ok <==> done >= 3
      ensures ok ==> db == Stores.Sweep(old(db), Floor(before))
      ensures Missing(old(db), db, Floor(before))
    {
      var cut := Floor(before);
      if done < 1 {
        return false;
      }
      db := db.(sessions := map h | h in db.sessions && !SessionSwept(db.sessions[h], cut) :: db.sessions[h]);
      assert FewerSessions(old(db).sessions, db.sessions, cut);
      if done < 2 {
        return false;
      }
      db := db.(grants := map k | k in db.grants && !GrantSwept(db.grants[k], cut) :: db.grants[k]);
      assert FewerGrants(old(db).grants, db.grants, cut);
      if done < 3 {
        return false;
      }
      db := db.(approvals := map g | g in db.approvals && !ApprovalSwept(db.approvals[g], cut) :: db.approvals[g]);
      assert FewerApprovals(old(db).approvals, db.approvals, cut);
      return true;
    }
  }

  // ---- renewals in two statements ----

  /**
   One session's row and the renewals that have read it and not written yet, each with the expiry it will write.
   `saves` counts the renewals written.
   */
  datatype Lease = Lease(row: Session, drafts: map<nat, Time>, saves: nat)

  datatype Action =
    | Draft(r: nat, at: Time)
    | Save(r: nat)
    | Count(now: Time)
    | Revoke(at: Time)

  /** The first statement drafts what the in-memory renewal would make of the row, and is refused when that is. */
  lemma DraftIsTheRenewal(l: Lease, r: nat, at: Time, s: State, hash: Hash)
    requires hash in s.sessions && s.sessions[hash] == l.row
    ensures match RenewAt(s, hash, at).1
            case Ok(renewed) => Step(l, Draft(r, at)) == l.(drafts := l.drafts[r := renewed.expiresAt])
            case Err(_) => Step(l, Draft(r, at)) == l
  {
  }

  /** A use in between is counted exactly when the in-memory check lets it. */
  lemma CountIsTheUse(l: Lease, now: Time, s: State, hash: Hash)
    requires hash in s.sessions && s.sessions[hash] == l.row
    ensures var t := Step(l, Count(now));
            t == l.(row := l.row.(uses := if CheckSession(s, hash, now).Ok? then l.row.uses + 1 else l.row.uses))
  {
  }

  /** A revocation between the two statements of a renewal takes effect at once, and once. */
  lemma RevokeTakesEffect(l: Lease, at: Time)
    ensures Step(l, Action.Revoke(at)).row ==
            l.row.(revokedAt := if l.row.revokedAt == None then Some(at) else l.row.revokedAt)
    ensures forall now :: Step(Step(l, Action.Revoke(at)), Count(now)) == Step(l, Action.Revoke(at))
  {
  }

  function Step(l: Lease, a: Action): Lease {
    match a
    case Draft(r, at) =>
      if l.row.revokedAt.Some? || l.row.expiresAt <= at then l
      else l.(drafts := l.drafts[r := Extended(l.row)])
    case Save(r) =>
      if r !in l.drafts then l
      else Lease(l.row.(expiresAt := l.drafts[r]), l.drafts - {r}, l.saves + 1)
    case Count(now) => if Live(l.row, now) then l.(row := l.row.(uses := l.row.uses + 1)) else l
    case Revoke(at) =>
      if l.row.revokedAt.Some? then l else l.(row := l.row.(revokedAt := Some(at)))
  }

  function After(l: Lease, run: seq<Action>): Lease {
    if run == [] then l else Step(After(l, run[..|run| - 1]), run[|run| - 1])
  }

  /** The expiry is what some number of renewals in a row would have made it, and no more than were written or drafted. */
  ghost predicate OnTheLadder(born: Session, t: Time, most: nat) {
    exists k: nat :: k <= most && t == LeaseEnd(born, k)
  }

  ghost predicate Sane(born: Session, l: Lease) {
    && l.row == born.(expiresAt := l.row.expiresAt, uses := l.row.uses, revokedAt := l.row.revokedAt)
    && OnTheLadder(born, l.row.expiresAt, l.saves)
    && forall r :: r in l.drafts ==> OnTheLadder(born, l.drafts[r], l.saves + 1)
  }

  lemma Climb(born: Session, t: Time, most: nat, more: nat)
    requires OnTheLadder(born, t, most) && most <= more
    ensures OnTheLadder(born, t, more)
  {
  }

  lemma DraftClimbs(born: Session, l: Lease)
    requires born.ttl >= 0 && Sane(born, l)
    ensures OnTheLadder(born, Extended(l.row), l.saves + 1)
  {
    var k: nat :| k <= l.saves && l.row.expiresAt == LeaseEnd(born, k);
    LeaseExtends(born, k, l.row);
  }

  lemma SaneStep(born: Session, l: Lease, a: Action)
    requires born.ttl >= 0 && Sane(born, l)
    ensures Sane(born, Step(l, a))
  {
    hide OnTheLadder, LeaseEnd, Extended;
    var t := Step(l, a);
    match a
    case Draft(r, _) => DraftClimbs(born, l);
    case Save(r) =>
      forall q | q in t.drafts
        ensures OnTheLadder(born, t.drafts[q], t.saves + 1)
      {
        Climb(born, l.drafts[q], l.saves + 1, t.saves + 1);
      }
    case Count(_) =>
    case Revoke(_) =>
  }

  function Begun(born: Session): Lease {
    Lease(born, map[], 0)
  }

  predicate WellMinted(born: Session) {
    born.ttl >= 0 && born.expiresAt <= born.createdAt + born.maxTtl * SECOND
  }

  /** However renewals interleave, the expiry is one that renewals in a row could have made. */
  lemma {:induction false} RunIsSane(born: Session, run: seq<Action>)
    requires WellMinted(born)
    ensures Sane(born, After(Begun(born), run))
  {
    if run == [] {
      assert born.expiresAt == LeaseEnd(born, 0);
    } else {
      RunIsSane(born, run[..|run| - 1]);
      SaneStep(born, After(Begun(born), run[..|run| - 1]), run[|run| - 1]);
    }
  }

  /** So the maximum lifetime holds all the same: nothing is counted from creation plus the maximum on. */
  lemma RacingRenewalsKeepMaximum(born: Session, run: seq<Action>, now: Time)
    requires WellMinted(born)
    ensures After(Begun(born), run).row.expiresAt <= born.createdAt + born.maxTtl * SECOND
    ensures now >= born.createdAt + born.maxTtl * SECOND ==>
              Step(After(Begun(born), run), Count(now)) == After(Begun(born), run)
  {
    RunIsSane(born, run);
  }

  /** A renewal that read the row before a revocation writes after it, and the session stays revoked. */
  lemma {:induction false} RacingRenewalsKeepRevocation(l: Lease, run: seq<Action>)
    requires l.row.revokedAt.Some?
    ensures After(l, run).row.revokedAt == l.row.revokedAt
    ensures After(l, run).row.uses == l.row.uses
  {
    if run != [] {
      RacingRenewalsKeepRevocation(l, run[..|run| - 1]);
    }
  }

  /** No other renewal is written, and this one does not start over. */
  predicate NoSave(run: seq<Action>, r: nat) {
    forall k :: 0 <= k < |run| ==> !run[k].Save? && !(run[k].Draft? && run[k].r == r)
  }

  lemma {:induction false} DraftWaits(l: Lease, run: seq<Action>, r: nat)
    requires NoSave(run, r) && r in l.drafts
    ensures var t := After(l, run);
            r in t.drafts && t.drafts[r] == l.drafts[r] && t.row.expiresAt == l.row.expiresAt && t.saves == l.saves
  {
    if run != [] {
      DraftWaits(l, run[..|run| - 1], r);
    }
  }

  /** A renewal that no other overlaps is the in-memory one: it extends the expiry, and never lowers it. */
  lemma AloneItExtends(l: Lease, r: nat, at: Time, run: seq<Action>)
    requires l.row.revokedAt.None? && at < l.row.expiresAt && NoSave(run, r)
    ensures var t := Step(After(Step(l, Draft(r, at)), run), Save(r));
            t.row.expiresAt == Extended(l.row) >= l.row.expiresAt == After(Step(l, Draft(r, at)), run).row.expiresAt
  {
    DraftWaits(Step(l, Draft(r, at)), run, r);
  }

  /** But expiry can go down: a renewal that sleeps through two others writes what it read long before. */
  lemma OverlappedRenewalLowersExpiry(born: Session, at: Time)
    requires WellMinted(born) && born.revokedAt.None? && at < born.expiresAt && CanDrop(born)
    ensures var l := After(Begun(born), Overlapping(at));
            && l.row.expiresAt == LeaseEnd(born, 2)
            && Step(l, Save(0)).row.expiresAt == LeaseEnd(born, 1) < LeaseEnd(born, 2)
  {
    hide LeaseEnd, Extended;
    var run := Overlapping(at);
    LeaseEndAtFirst(born);
    var s1 := Step(Begun(born), Draft(0, at));
    var s3 := Step(Step(s1, Draft(1, at)), Save(1));
    LeaseExtends(born, 0, born);
    assert s3.row == born.(expiresAt := LeaseEnd(born, 1)) && s3.drafts == map[0 := LeaseEnd(born, 1)];
    LeaseExtends(born, 1, s3.row);
    assert Begun(born) == After(Begun(born), run[..0]);
    AfterNext(Begun(born), run, 0);
    AfterNext(Begun(born), run, 1);
    AfterNext(Begun(born), run, 2);
    AfterNext(Begun(born), run, 3);
    AfterNext(Begun(born), run, 4);
    assert run[..5] == run;
  }

  lemma AfterNext(l: Lease, run: seq<Action>, k: nat)
    requires k < |run|
    ensures After(l, run[..k + 1]) == Step(After(l, run[..k]), run[k])
  {
    assert run[..k + 1][..k] == run[..k];
  }

  lemma LeaseEndAtFirst(born: Session)
    requires WellMinted(born)
    ensures LeaseEnd(born, 0) == born.expiresAt
    ensures CanDrop(born) ==> born.expiresAt < LeaseEnd(born, 1) < LeaseEnd(born, 2)
  {
  }

  /** One renewal reads, a second reads and writes, twice; the first is then still to write. */
  function Overlapping(at: Time): seq<Action> {
    [Draft(0, at), Draft(1, at), Save(1), Draft(1, at), Save(1)]
  }

  /** The session can be extended at all, and one full renewal does not reach the maximum. */
  predicate CanDrop(born: Session) {
    born.ttl > 0 && born.expiresAt + born.ttl * SECOND < born.createdAt + born.maxTtl * SECOND
  }

  /** What a renewal will write is at least one renewal above the start. */
  ghost predicate DraftsAbove(born: Session, l: Lease) {
    forall r :: r in l.drafts ==> exists k: nat :: k >= 1 && l.drafts[r] == LeaseEnd(born, k)
  }

  lemma {:induction false} DraftsStayAbove(born: Session, run: seq<Action>)
    requires WellMinted(born)
    ensures DraftsAbove(born, After(Begun(born), run))
  {
    hide LeaseEnd, Extended;
    if run != [] {
      var l := After(Begun(born), run[..|run| - 1]);
      DraftsStayAbove(born, run[..|run| - 1]);
      RunIsSane(born, run[..|run| - 1]);
      var k: nat :| k <= l.saves && l.row.expiresAt == LeaseEnd(born, k);
      LeaseExtends(born, k, l.row);
    }
  }

  /** Without room for one and a bit, every renewal above the start ends the lease at the same time. */
  lemma OneRungOnly(born: Session, j: nat, k: nat)
    requires WellMinted(born) && !CanDrop(born) && k >= 1
    ensures LeaseEnd(born, j) <= LeaseEnd(born, k)
  {
    var step := born.ttl * SECOND;
    if born.ttl > 0 {
      assert k * step == step + (k - 1) * step;
    }
  }

  /**
   Exactly when "expiry never decreases" fails in this store: some interleaving lowers it if and only if the
   session can be extended and one full renewal stays below the maximum.
   */
  lemma ExpiryDropsIff(born: Session)
    requires WellMinted(born) && born.revokedAt.None?
    ensures CanDrop(born) <==>
            exists run, r ::
              Step(After(Begun(born), run), Save(r)).row.expiresAt < After(Begun(born), run).row.expiresAt
  {
    hide LeaseEnd;
    if CanDrop(born) {
      OverlappedRenewalLowersExpiry(born, born.expiresAt - 1);
      var run := Overlapping(born.expiresAt - 1);
      assert Step(After(Begun(born), run), Save(0)).row.expiresAt < After(Begun(born), run).row.expiresAt;
    } else {
      forall run, r
        ensures Step(After(Begun(born), run), Save(r)).row.expiresAt >= After(Begun(born), run).row.expiresAt
      {
        var l := After(Begun(born), run);
        RunIsSane(born, run);
        DraftsStayAbove(born, run);
        if r in l.drafts {
          var j: nat :| j <= l.saves && l.row.expiresAt == LeaseEnd(born, j);
          var k: nat :| k >= 1 && l.drafts[r] == LeaseEnd(born, k);
          OneRungOnly(born, j, k);
        }
      }
    }
  }
}
