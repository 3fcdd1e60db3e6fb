/**
 The proxy's two questions about a page: whether the agent may connect to its
 host at all, and which one item of the agent's is meant. Both go through the
 store's grants, in whatever order the store lists them.
 */
module Proxy {
  import opened Protocol
  import opened Grants
  import opened Stores

  type Key = (string, string)

  /** A listing names every grant once. */
  ghost predicate Listing(s: State, order: seq<Key>) {
    && (forall i, j :: 0 <= i < j < |order| ==> order[i] != order[j])
    && (forall k :: k in order <==> k in s.grants)
  }

  predicate Own(s: State, agentId: string, k: Key) {
    k in s.grants && s.grants[k].agentId == agentId
  }

  /** A grant of the agent's for an item that the page matches; lapsed grants and archived items included. */
  predicate Candidate(s: State, agentId: string, url: RawUrl, k: Key) {
    && Own(s, agentId, k)
    && s.grants[k].itemId in s.shelf.items
    && HostAllowed(s.shelf.items[s.grants[k].itemId], url)
  }

  function Candidates(s: State, agentId: string, url: RawUrl): set<Key> {
    set k | k in s.grants && Candidate(s, agentId, url, k)
  }

  /** Some grant of the agent's is for an item the store does not have. */
  predicate Dangling(s: State, agentId: string) {
    exists k :: k in s.grants && Own(s, agentId, k) && s.grants[k].itemId !in s.shelf.items
  }

  predicate Lapsed(g: Grant, now: Time) {
    g.expiresAt.Some? && now >= g.expiresAt.value
  }

  // ---- the item lookup ----

  datatype Lookup = LookupFailed | Found(item: Item, grant: Option<Grant>, result: UseResult)

  function LiveApproval(s: State, grantId: string, now: Time): Option<Approval> {
    if grantId in s.approvals && now < s.approvals[grantId].expiresAt then Some(s.approvals[grantId]) else None
  }

  function Judged(s: State, agentId: string, url: RawUrl, now: Time, k: Key): UseResult
    requires agentId in s.agents && Candidate(s, agentId, url, k)
  {
    var g := s.grants[k];
    Evaluate(Input(s.agents[agentId], s.shelf.items[g.itemId], Some(g), Fetch, url, LiveApproval(s, g.id, now), now))
  }

  /** What a lookup may answer, whatever order the grants come in. */
  ghost predicate Answers(s: State, agentId: string, url: RawUrl, now: Time, r: Lookup) {
    if agentId !in s.agents || Dangling(s, agentId) then r == LookupFailed
    else if Candidates(s, agentId, url) == {} then r == Found(NO_ITEM, None, Refuse("host_not_allowed"))
    else
      exists k :: Candidate(s, agentId, url, k) &&
        if Candidates(s, agentId, url) == {k} then
          r == Found(s.shelf.items[s.grants[k].itemId], Some(s.grants[k]), Judged(s, agentId, url, now, k))
        else r == Found(NO_ITEM, None, Refuse("ambiguous_item"))
  }

  function CandidatesIn(s: State, order: seq<Key>, agentId: string, url: RawUrl): set<Key> {
    set k | k in order && Candidate(s, agentId, url, k)
  }

  lemma CandidatesGrow(s: State, order: seq<Key>, agentId: string, url: RawUrl, i: nat)
    requires Listing(s, order) && i < |order|
    ensures order[i] in s.grants && order[i] !in order[..i]
    ensures CandidatesIn(s, order[..i + 1], agentId, url) ==
            CandidatesIn(s, order[..i], agentId, url) + (if Candidate(s, agentId, url, order[i]) then {order[i]} else {})
  {
    hide Candidate;
    assert order[i] in order;
    assert order[..i + 1] == order[..i] + [order[i]];
  }

  lemma CandidatesAreListed(s: State, order: seq<Key>, agentId: string, url: RawUrl)
    requires Listing(s, order)
    ensures CandidatesIn(s, order, agentId, url) == Candidates(s, agentId, url)
  {
    hide Candidate;
  }

  predicate Kept(s: State, agentId: string, k: Key) {
    Own(s, agentId, k) ==> s.grants[k].itemId in s.shelf.items
  }

  /** The lookup's loop over the grants: it counts the matches and remembers the last. */
  method CountMatches(s: State, order: seq<Key>, agentId: string, url: RawUrl) returns (ok: bool, n: nat, hit: Key)
    requires Listing(s, order)
    ensures ok == !Dangling(s, agentId)
    ensures ok ==> n == |Candidates(s, agentId, url)| && (n > 0 ==> hit in Candidates(s, agentId, url))
  {
    hide HostAllowed, Dangling, Listing, CandidatesIn, Candidates;
    n, hit := 0, ("", "");
    ghost var seen: set<Key> := {};
    assert order[..0] == [];
    NoneIn(s, agentId, url);
    for i := 0 to |order|
      invariant seen == CandidatesIn(s, order[..i], agentId, url)
      invariant n == |seen| && (n > 0 ==> hit in seen)
      invariant forall j :: 0 <= j < i ==> Kept(s, agentId, order[j])
    {
      CandidatesGrow(s, order, agentId, url, i);
      NotYet(s, order[..i], agentId, url, order[i]);
      var k := order[i];
      if s.grants[k].agentId != agentId {
        continue;
      }
      if s.grants[k].itemId !in s.shelf.items {
        DanglingAt(s, agentId, k);
        return false, n, hit;
      }
      if !HostAllowed(s.shelf.items[s.grants[k].itemId], url) {
        continue;
      }
      n := n + 1;
      hit := k;
      seen := seen + {k};
    }
    assert order[..|order|] == order;
    NotDangling(s, order, agentId);
    CandidatesAreListed(s, order, agentId, url);
    return true, n, hit;
  }

  lemma NoneIn(s: State, agentId: string, url: RawUrl)
    ensures CandidatesIn(s, [], agentId, url) == {}
  {
  }

  lemma NotYet(s: State, order: seq<Key>, agentId: string, url: RawUrl, k: Key)
    requires k !in order
    ensures k !in CandidatesIn(s, order, agentId, url)
  {
  }

  method LookUp(s: State, order: seq<Key>, agentId: string, url: RawUrl, now: Time) returns (r: Lookup)
    requires Listing(s, order)
    ensures Answers(s, agentId, url, now, r)
  {
    hide HostAllowed, Evaluate, Dangling, Listing;
    if agentId !in s.agents {
      return LookupFailed;
    }
    var ok, n, hit := CountMatches(s, order, agentId, url);
    if !ok {
      return LookupFailed;
    }
    if n == 0 {
      return Found(NO_ITEM, None, Refuse("host_not_allowed"));
    }
    assert Candidate(s, agentId, url, hit);
    if n > 1 {
      assert |{hit}| == 1;
      return Found(NO_ITEM, None, Refuse("ambiguous_item"));
    }
    OnlyOne(Candidates(s, agentId, url), hit);
    var g := s.grants[hit];
    var item := s.shelf.items[g.itemId];
    var result := Evaluate(Input(s.agents[agentId], item, Some(g), Fetch, url, LiveApproval(s, g.id, now), now));
    return Found(item, Some(g), result);
  }

  lemma DanglingAt(s: State, agentId: string, k: Key)
    requires k in s.grants && Own(s, agentId, k) && s.grants[k].itemId !in s.shelf.items
    ensures Dangling(s, agentId)
  {
  }

  lemma NotDangling(s: State, order: seq<Key>, agentId: string)
    requires Listing(s, order) && forall j :: 0 <= j < |order| ==> Kept(s, agentId, order[j])
    ensures !Dangling(s, agentId)
  {
    forall k | k in s.grants
      ensures Kept(s, agentId, k)
    {
      assert k in order;
    }
  }

  lemma OnlyOne(keys: set<Key>, k: Key)
    requires |keys| == 1 && k in keys
    ensures keys == {k}
  {
    var rest := keys - {k};
    assert |rest| == 0;
    assert keys == rest + {k};
  }

  // ---- the connect gate ----

  predicate Reachable(s: State, agentId: string, url: RawUrl, now: Time, k: Key) {
    && Candidate(s, agentId, url, k)
    && !Lapsed(s.grants[k], now)
    && !s.shelf.items[s.grants[k].itemId].archived
  }

  predicate GateOpen(s: State, agentId: string, url: RawUrl, now: Time) {
    && !Revoked(s, agentId)
    && (forall k :: k in s.grants && Own(s, agentId, k) && !Lapsed(s.grants[k], now) ==>
          s.grants[k].itemId in s.shelf.items)
    && exists k :: k in s.grants && Reachable(s, agentId, url, now, k)
  }

  /** The agent's items: those of its grants that have not lapsed, less the archived; none once it is revoked. */
  method ItemsForAgent(s: State, order: seq<Key>, agentId: string, now: Time) returns (r: Option<seq<Item>>)
    requires Listing(s, order)
    ensures Revoked(s, agentId) ==> r == Some([])
    ensures !Revoked(s, agentId) ==>
              (r.Some? <==> forall k :: k in s.grants && Own(s, agentId, k) && !Lapsed(s.grants[k], now) ==>
                                          s.grants[k].itemId in s.shelf.items)
    ensures !Revoked(s, agentId) && r.Some? ==>
              forall item :: item in r.value <==> exists k :: Serves(s, agentId, now, k, item)
  {
    if agentId in s.agents && s.agents[agentId].revokedAt.Some? {
      return Some([]);
    }
    var out: seq<Item> := [];
    for i := 0 to |order|
      invariant forall k :: k in order[..i] && Own(s, agentId, k) && !Lapsed(s.grants[k], now) ==>
                  s.grants[k].itemId in s.shelf.items
      invariant forall item :: item in out <==> exists k :: k in order[..i] && Serves(s, agentId, now, k, item)
    {
      var k := order[i];
      assert k in order;
      assert order[..i + 1] == order[..i] + [k];
      var g := s.grants[k];
      if g.agentId != agentId || Lapsed(g, now) {
        continue;
      }
      if g.itemId !in s.shelf.items {
        return None;
      }
      if s.shelf.items[g.itemId].archived {
        continue;
      }
      assert Serves(s, agentId, now, k, s.shelf.items[g.itemId]);
      out := out + [s.shelf.items[g.itemId]];
    }
    assert order[..|order|] == order;
    return Some(out);
  }

  predicate Serves(s: State, agentId: string, now: Time, k: Key, item: Item) {
    && Own(s, agentId, k) && !Lapsed(s.grants[k], now)
    && s.grants[k].itemId in s.shelf.items && item == s.shelf.items[s.grants[k].itemId] && !item.archived
  }

  method AgentMayHost(s: State, order: seq<Key>, agentId: string, url: RawUrl, now: Time) returns (ok: bool)
    requires Listing(s, order)
    ensures ok == GateOpen(s, agentId, url, now)
  {
    hide HostAllowed;
    var items := ItemsForAgent(s, order, agentId, now);
    if items.None? {
      return false;
    }
    for i := 0 to |items.value|
      invariant forall item :: item in items.value[..i] ==> !HostAllowed(item, url)
    {
      if HostAllowed(items.value[i], url) {
        assert items.value[i] in items.value;
        var k :| Serves(s, agentId, now, k, items.value[i]);
        assert Reachable(s, agentId, url, now, k);
        return true;
      }
    }
    assert items.value[..|items.value|] == items.value;
    if !Revoked(s, agentId) {
      NothingReachable(s, agentId, url, now, items.value);
    }
    return false;
  }

  lemma NothingReachable(s: State, agentId: string, url: RawUrl, now: Time, items: seq<Item>)
    requires forall item :: item in items <==> exists k :: Serves(s, agentId, now, k, item)
    requires forall item :: item in items ==> !HostAllowed(item, url)
    ensures forall k :: k in s.grants ==> !Reachable(s, agentId, url, now, k)
  {
    hide HostAllowed;
    forall k | k in s.grants && s.grants[k].itemId in s.shelf.items
      ensures !Reachable(s, agentId, url, now, k)
    {
      var item := s.shelf.items[s.grants[k].itemId];
      assert Serves(s, agentId, now, k, item) ==> item in items;
    }
  }

  // ---- the two against each other ----

  /**
   A lookup that allows has found the only grant of the agent's whose item matches, returns that item, and asks
   for nothing the connect gate would have refused.
   */
  lemma AllowedMeansUniqueAndOpen(s: State, agentId: string, url: RawUrl, now: Time, r: Lookup)
    requires Answers(s, agentId, url, now, r) && r.Found? && r.result.decision == Allow
    ensures exists k :: Candidates(s, agentId, url) == {k} && r.grant == Some(s.grants[k]) &&
                        s.grants[k].itemId in s.shelf.items && r.item == s.shelf.items[s.grants[k].itemId]
    ensures GateOpen(s, agentId, url, now)
  {
    hide HostAllowed, Evaluate;
    var k :| Candidate(s, agentId, url, k) && Candidates(s, agentId, url) == {k};
    var g := s.grants[k];
    EvaluateMeans(Input(s.agents[agentId], s.shelf.items[g.itemId], Some(g), Fetch, url, LiveApproval(s, g.id, now), now));
    assert Reachable(s, agentId, url, now, k);
  }

  /** The grant needs no approval, or has a live one of its own. */
  predicate Approved(s: State, g: Grant, now: Time) {
    g.level.Level2? || (LiveApproval(s, g.id, now).Some? && s.approvals[g.id].grantId == g.id)
  }

  /** What a grant, agent and item must agree on. */
  predicate Consistent(s: State, agentId: string, g: Grant)
    requires agentId in s.agents && g.itemId in s.shelf.items
  {
    && s.agents[agentId].kind == Agent
    && g.orgId == s.agents[agentId].orgId == s.shelf.items[g.itemId].orgId
    && g.agentId == s.agents[agentId].id && g.itemId == s.shelf.items[g.itemId].id
    && Fetch in g.actions && !g.level.OtherLevel?
  }

  /**
   Where the gate is open the lookup still refuses, and exactly when: another grant of the agent's matches the
   page too, be it lapsed or for an archived item, or one is for an item that is gone; or the one grant is not
   for this agent, item and action, or lacks its approval.
   */
  lemma OpenGateAllowsIff(s: State, agentId: string, url: RawUrl, now: Time, r: Lookup)
    requires agentId in s.agents && GateOpen(s, agentId, url, now) && Answers(s, agentId, url, now, r)
    ensures r.Found? && r.result.decision == Allow <==>
            && !Dangling(s, agentId)
            && exists k :: Candidates(s, agentId, url) == {k} && Consistent(s, agentId, s.grants[k]) &&
                           Approved(s, s.grants[k], now)
  {
    hide HostAllowed, Evaluate;
    var open :| open in s.grants && Reachable(s, agentId, url, now, open);
    assert open in Candidates(s, agentId, url);
    if !Dangling(s, agentId) && Candidates(s, agentId, url) == {open} {
      var k :| Candidate(s, agentId, url, k) &&
        if Candidates(s, agentId, url) == {k} then
          r == Found(s.shelf.items[s.grants[k].itemId], Some(s.grants[k]), Judged(s, agentId, url, now, k))
        else r == Found(NO_ITEM, None, Refuse("ambiguous_item"));
      assert k in Candidates(s, agentId, url);
      assert k == open;
      JudgedAllowIff(s, agentId, url, now, open);
      assert forall k :: Candidates(s, agentId, url) == {k} ==> k in {k} ==> open == k;
    }
  }

  lemma JudgedAllowIff(s: State, agentId: string, url: RawUrl, now: Time, k: Key)
    requires agentId in s.agents && !Revoked(s, agentId) && Reachable(s, agentId, url, now, k)
    ensures Judged(s, agentId, url, now, k).decision == Allow <==>
            Consistent(s, agentId, s.grants[k]) && Approved(s, s.grants[k], now)
  {
    hide HostAllowed, Evaluate;
    var g := s.grants[k];
    var input :=
      Input(s.agents[agentId], s.shelf.items[g.itemId], Some(g), Fetch, url, LiveApproval(s, g.id, now), now);
    EvaluateMeans(input);
    assert HostAllowed(input.item, url);
  }

  /** In the store's own rows: the grant returned is the agent's only one for an item that the page is for. */
  lemma AllowedMeansOnlyGrant(s: State, agentId: string, url: RawUrl, now: Time, r: Lookup)
    requires Answers(s, agentId, url, now, r) && r.Found? && r.result.decision == Allow
    requires PlainPort(url)
    requires forall i, u :: i in s.shelf.items && u in s.shelf.items[i].uris ==> PlainPort(u)
    ensures exists k ::
              && k in s.grants && r.grant == Some(s.grants[k]) && s.grants[k].agentId == agentId
              && s.grants[k].itemId in s.shelf.items && r.item == s.shelf.items[s.grants[k].itemId]
              && !r.item.archived && (s.grants[k].expiresAt == None || now < s.grants[k].expiresAt.value)
              && agentId in s.agents && s.agents[agentId].revokedAt == None
              && (exists u :: u in r.item.uris && SamePlace(u, url))
              && forall j :: j in s.grants && j != k && s.grants[j].agentId == agentId ==>
                   s.grants[j].itemId in s.shelf.items &&
                   !exists u :: u in s.shelf.items[s.grants[j].itemId].uris && SamePlace(u, url)
  {
    hide HostAllowed, Evaluate, SamePlace, PlainPort;
    AllowedMeansUniqueAndOpen(s, agentId, url, now, r);
    var k :| Candidates(s, agentId, url) == {k} && r.grant == Some(s.grants[k]) &&
      s.grants[k].itemId in s.shelf.items && r.item == s.shelf.items[s.grants[k].itemId];
    assert k in Candidates(s, agentId, url);
    var open :| open in s.grants && Reachable(s, agentId, url, now, open);
    assert open in Candidates(s, agentId, url);
    HostAllowedIff(r.item, url);
    forall j | j in s.grants && j != k && s.grants[j].agentId == agentId
      ensures s.grants[j].itemId in s.shelf.items
      ensures !exists u :: u in s.shelf.items[s.grants[j].itemId].uris && SamePlace(u, url)
    {
      assert j !in Candidates(s, agentId, url);
      HostAllowedIff(s.shelf.items[s.grants[j].itemId], url);
    }
  }

  /** The gate in the same terms. */
  lemma GateOpenIff(s: State, agentId: string, url: RawUrl, now: Time)
    requires PlainPort(url)
    requires forall i, u :: i in s.shelf.items && u in s.shelf.items[i].uris ==> PlainPort(u)
    ensures GateOpen(s, agentId, url, now) <==>
            && (agentId in s.agents ==> s.agents[agentId].revokedAt == None)
            && (forall k :: k in s.grants && s.grants[k].agentId == agentId &&
                            (s.grants[k].expiresAt == None || now < s.grants[k].expiresAt.value) ==>
                              s.grants[k].itemId in s.shelf.items)
            && exists k, u ::
                 && k in s.grants && s.grants[k].agentId == agentId && s.grants[k].itemId in s.shelf.items
                 && (s.grants[k].expiresAt == None || now < s.grants[k].expiresAt.value)
                 && !s.shelf.items[s.grants[k].itemId].archived
                 && u in s.shelf.items[s.grants[k].itemId].uris && SamePlace(u, url)
  {
    hide HostAllowed, SamePlace, PlainPort;
    forall k | k in s.grants && s.grants[k].itemId in s.shelf.items
      ensures HostAllowed(s.shelf.items[s.grants[k].itemId], url) <==>
              exists u :: u in s.shelf.items[s.grants[k].itemId].uris && SamePlace(u, url)
    {
      HostAllowedIff(s.shelf.items[s.grants[k].itemId], url);
    }
  }

  /** The agent's items, in the store's own rows. */
  lemma ServesIff(s: State, agentId: string, now: Time, k: Key, item: Item)
    ensures Serves(s, agentId, now, k, item) <==>
            && k in s.grants && s.grants[k].agentId == agentId
            && (s.grants[k].expiresAt == None || now < s.grants[k].expiresAt.value)
            && s.grants[k].itemId in s.shelf.items && item == s.shelf.items[s.grants[k].itemId] && !item.archived
  {
  }

  lemma ApprovedIff(s: State, g: Grant, now: Time)
    ensures Approved(s, g, now) <==>
            || g.level == Level2
            || (g.id in s.approvals && s.approvals[g.id].grantId == g.id && now < s.approvals[g.id].expiresAt)
  {
  }

  /** What an allowing lookup names as its approval is the grant's own and still lasts. */
  lemma AllowedIsApproved(s: State, agentId: string, url: RawUrl, now: Time, r: Lookup)
    requires Answers(s, agentId, url, now, r) && r.Found? && r.result.decision == Allow
    ensures r.grant.Some?
    ensures var g := r.grant.value;
            g.level != Level2 ==>
              && g.id in s.approvals && s.approvals[g.id].grantId == g.id && now < s.approvals[g.id].expiresAt
              && r.result.approvalId == s.approvals[g.id].id
  {
    hide HostAllowed, Evaluate;
    var k :| Candidate(s, agentId, url, k) && Candidates(s, agentId, url) == {k};
    var g := s.grants[k];
    var input :=
      Input(s.agents[agentId], s.shelf.items[g.itemId], Some(g), Fetch, url, LiveApproval(s, g.id, now), now);
    EvaluateMeans(input);
    ApprovalIsNamed(input);
  }

  /** The grant is the agent's, for an item that is there and that the page is for. */
  ghost predicate Matching(s: State, agentId: string, url: RawUrl, k: Key) {
    && k in s.grants && s.grants[k].agentId == agentId && s.grants[k].itemId in s.shelf.items
    && exists u :: u in s.shelf.items[s.grants[k].itemId].uris && SamePlace(u, url)
  }

  /**
   What a lookup that returns no item means: an unknown agent or a missing item is an error, no matching grant
   and several are refusals of their own.
   */
  lemma LookupRefusesIff(s: State, agentId: string, url: RawUrl, now: Time, r: Lookup)
    requires Answers(s, agentId, url, now, r)
    requires PlainPort(url)
    requires forall i, u :: i in s.shelf.items && u in s.shelf.items[i].uris ==> PlainPort(u)
    ensures r == LookupFailed <==>
            agentId !in s.agents ||
            exists k :: k in s.grants && s.grants[k].agentId == agentId && s.grants[k].itemId !in s.shelf.items
    ensures r.Found? && (forall k :: !Matching(s, agentId, url, k)) ==>
              r == Found(NO_ITEM, None, UseResult(Deny, "host_not_allowed", ""))
    ensures r.Found? && (exists k, j :: k != j && Matching(s, agentId, url, k) && Matching(s, agentId, url, j)) ==>
              r == Found(NO_ITEM, None, UseResult(Deny, "ambiguous_item", ""))
    ensures r.Found? && r.grant.None? ==>
              (forall k :: !Matching(s, agentId, url, k)) ||
              exists k, j :: k != j && Matching(s, agentId, url, k) && Matching(s, agentId, url, j)
  {
    hide HostAllowed, Evaluate, SamePlace, PlainPort;
    forall k
      ensures Matching(s, agentId, url, k) <==> k in Candidates(s, agentId, url)
    {
      if k in s.grants && s.grants[k].itemId in s.shelf.items {
        HostAllowedIff(s.shelf.items[s.grants[k].itemId], url);
      }
    }
    if r.Found? && r.grant.None? && Candidates(s, agentId, url) != {} {
      var k :| k in Candidates(s, agentId, url) && Candidates(s, agentId, url) != {k};
      var j :| j in Candidates(s, agentId, url) && j != k;
    }
  }
}
