/** The decision function: may this principal use this item, on this target, now? */
module Grants {
  import opened Protocol

  datatype Input = Input(principal: Principal, item: Item, grant: Option<Grant>, action: ActionKind,
                         target: RawUrl, approval: Option<Approval>, now: Time)

  function Refuse(reason: string): UseResult {
    UseResult(Deny, reason, "")
  }

  function Evaluate(input: Input): UseResult {
    if input.principal.kind != Agent then Refuse("human_cannot_use")
    else if input.principal.revokedAt.Some? then Refuse("agent_revoked")
    else if input.item.archived then Refuse("item_archived")
    else if input.grant.None? then Refuse("no_grant")
    else
      var g := input.grant.value;
      if g.orgId != input.principal.orgId || g.orgId != input.item.orgId then Refuse("wrong_org")
      else if g.agentId != input.principal.id then Refuse("wrong_agent")
      else if g.itemId != input.item.id then Refuse("wrong_item")
      else if g.expiresAt.Some? && input.now >= g.expiresAt.value then Refuse("grant_expired")
      else if !ActionAllowed(g.actions, input.action) then Refuse("action_not_allowed")
      else if input.action == Fetch && HostRefusal(input.item, input.target) != "" then
        Refuse(HostRefusal(input.item, input.target))
      else
        match g.level
        case Level2 => UseResult(Allow, "", "")
        case Level1 =>
          if input.approval.None? || input.approval.value.grantId != g.id then
            UseResult(NeedApproval, "need_approval", "")
          else if input.now >= input.approval.value.expiresAt then
            UseResult(NeedApproval, "approval_expired", "")
          else UseResult(Allow, "", input.approval.value.id)
        case OtherLevel => Refuse("unknown_level")
  }

  /** A fetch grant also covers handing the item to a child's environment. */
  predicate ActionAllowed(actions: seq<ActionKind>, want: ActionKind) {
    want in actions || (want == Env && Fetch in actions)
  }

  function LowerChar(c: char): char {
    if 'A' <= c <= 'Z' then c - 'A' + 'a' else c
  }

  function Lower(s: string): string {
    seq(|s|, i requires 0 <= i < |s| => LowerChar(s[i]))
  }

  /** The hostname, plus the port when it is not the scheme's default; empty for anything without a host. */
  function CanonicalHost(u: RawUrl): string {
    match u
    case Parsed(scheme, hostname, port) =>
      if hostname == "" then ""
      else if port == "" || (Lower(scheme) == "https" && port == "443") || (Lower(scheme) == "http" && port == "80")
      then Lower(hostname)
      else Lower(hostname) + ":" + port
    case _ => ""
  }

  predicate Lists(uris: seq<RawUrl>, host: string) {
    exists u :: u in uris && CanonicalHost(u) == host
  }

  /** Empty when the item may be used against the target, else the reason it may not. */
  function HostRefusal(item: Item, target: RawUrl): string {
    if target.Blank? then "missing_url"
    else if CanonicalHost(target) == "" then "invalid_url"
    else if Lists(item.uris, CanonicalHost(target)) then ""
    else "host_not_allowed"
  }

  predicate HostAllowed(item: Item, target: RawUrl) {
    HostRefusal(item, target) == ""
  }

  /** The scan over the item's own URIs, which skips every one that has no host. */
  method ScanHosts(item: Item, target: RawUrl) returns (refusal: string)
    ensures refusal == HostRefusal(item, target)
  {
    if target.Blank? {
      return "missing_url";
    }
    var want := CanonicalHost(target);
    if want == "" {
      return "invalid_url";
    }
    for i := 0 to |item.uris|
      invariant !Lists(item.uris[..i], want)
    {
      if item.uris[i].Parsed? && CanonicalHost(item.uris[i]) == want {
        assert item.uris[i] in item.uris;
        return "";
      }
      assert item.uris[..i + 1] == item.uris[..i] + [item.uris[i]];
    }
    assert item.uris[..|item.uris|] == item.uris;
    return "host_not_allowed";
  }

  /** Everything but the human's last unlock. */
  predicate Eligible(input: Input) {
    && input.principal.kind == Agent
    && input.principal.revokedAt.None?
    && !input.item.archived
    && input.grant.Some?
    && (var g := input.grant.value;
        && g.orgId == input.principal.orgId == input.item.orgId
        && g.agentId == input.principal.id
        && g.itemId == input.item.id
        && (g.expiresAt.Some? ==> input.now < g.expiresAt.value)
        && ActionAllowed(g.actions, input.action)
        && (input.action == Fetch ==> HostAllowed(input.item, input.target))
        && !g.level.OtherLevel?)
  }

  /** A level-1 grant wants an approval of that very grant that has not lapsed. */
  predicate Unlocked(input: Input)
    requires input.grant.Some?
  {
    var g := input.grant.value;
    g.level.Level2? ||
    (input.approval.Some? && input.approval.value.grantId == g.id && input.now < input.approval.value.expiresAt)
  }

  /** What each of the three answers means, over every input. */
  lemma EvaluateMeans(input: Input)
    ensures Evaluate(input).decision == Allow <==> Eligible(input) && Unlocked(input)
    ensures Evaluate(input).decision == NeedApproval <==> Eligible(input) && !Unlocked(input)
    ensures Evaluate(input).decision == Deny <==> !Eligible(input)
    ensures Evaluate(input).decision == Deny ==> Evaluate(input).reason != "" && Evaluate(input).approvalId == ""
  {
  }

  /** Authorization lapses with time and never comes back by waiting: what is allowed now was allowed before. */
  lemma AllowedEarlier(input: Input, earlier: Time)
    requires earlier <= input.now
    requires Evaluate(input).decision == Allow
    ensures Evaluate(input.(now := earlier)) == Evaluate(input)
  {
  }

  // ---- what the host comparison compares ----

  /** The same text but for the case of ASCII letters. */
  predicate SameUpToCase(a: string, b: string) {
    |a| == |b| && forall i :: 0 <= i < |a| ==>
      || a[i] == b[i]
      || ('A' <= a[i] <= 'Z' && b[i] as int == a[i] as int + 32)
      || ('A' <= b[i] <= 'Z' && a[i] as int == b[i] as int + 32)
  }

  /** The port that counts: none where it is absent or the default of the URL's own scheme. */
  function EffectivePort(u: RawUrl): string
    requires u.Parsed?
  {
    if SameUpToCase(u.scheme, "https") && u.port == "443" then ""
    else if SameUpToCase(u.scheme, "http") && u.port == "80" then ""
    else u.port
  }

  lemma LowerIff(a: string, b: string)
    ensures Lower(a) == Lower(b) <==> SameUpToCase(a, b)
  {
    if Lower(a) == Lower(b) {
      forall i | 0 <= i < |a|
        ensures LowerChar(a[i]) == LowerChar(b[i])
      {
        assert Lower(a)[i] == LowerChar(a[i]) && Lower(b)[i] == LowerChar(b[i]);
      }
    }
    if SameUpToCase(a, b) {
      forall i | 0 <= i < |a|
        ensures Lower(a)[i] == Lower(b)[i]
      {
      }
    }
  }

  /** The host as it is compared, in these terms. */
  lemma CanonicalHostIs(u: RawUrl)
    requires u.Parsed?
    ensures CanonicalHost(u) ==
            if u.hostname == "" then ""
            else Lower(u.hostname) + (if EffectivePort(u) == "" then "" else ":" + EffectivePort(u))
  {
    assert Lower("https") == "https" && Lower("http") == "http";
    LowerIff(u.scheme, "https");
    LowerIff(u.scheme, "http");
    assert Lower(u.hostname) + "" == Lower(u.hostname);
  }

  lemma ColonAt(a: string, p: string)
    ensures (a + ":" + p)[|a|] == ':' && ':' in a + ":" + p
    ensures (a + ":" + p)[..|a|] == a && (a + ":" + p)[|a| + 1..] == p
    ensures ':' !in p ==> forall i :: |a| < i < |a| + 1 + |p| ==> (a + ":" + p)[i] != ':'
  {
    assert (a + ":" + p)[|a|] == ':';
  }

  lemma LastColon(a: string, b: string, p: string, q: string)
    requires ':' !in p && ':' !in q
    ensures a + ":" + p == b + ":" + q <==> a == b && p == q
  {
    ColonAt(a, p);
    ColonAt(b, q);
    if a + ":" + p == b + ":" + q {
      assert |a| == |b|;
    }
  }

  predicate SameHostAndPort(u: RawUrl, v: RawUrl) {
    && u.Parsed? && v.Parsed? && u.hostname != "" && v.hostname != ""
    && SameUpToCase(u.hostname, v.hostname) && EffectivePort(u) == EffectivePort(v)
  }

  /** One URL has a port, the other has it at the end of its hostname, after a colon. */
  predicate PortInHostname(u: RawUrl, v: RawUrl) {
    && u.Parsed? && v.Parsed? && u.hostname != "" && v.hostname != ""
    && EffectivePort(u) != "" && EffectivePort(v) == ""
    && Lower(v.hostname) == Lower(u.hostname) + ":" + EffectivePort(u)
  }

  /** Every case, colons in hostnames included: the hosts are the same exactly so, or when a hostname swallows the port. */
  lemma SameHostIff(u: RawUrl, v: RawUrl)
    requires u.Parsed? && v.Parsed? && ':' !in u.port && ':' !in v.port
    requires u.hostname != "" || v.hostname != ""
    ensures CanonicalHost(u) == CanonicalHost(v) <==>
            SameHostAndPort(u, v) || PortInHostname(u, v) || PortInHostname(v, u)
  {
    hide SameUpToCase, Lower, CanonicalHost;
    CanonicalHostIs(u);
    CanonicalHostIs(v);
    LowerIff(u.hostname, v.hostname);
    LowerKeepsLength(u.hostname);
    LowerKeepsLength(v.hostname);
    LastColon(Lower(u.hostname), Lower(v.hostname), EffectivePort(u), EffectivePort(v));
    assert Lower(u.hostname) + (":" + EffectivePort(u)) == Lower(u.hostname) + ":" + EffectivePort(u);
    assert Lower(v.hostname) + (":" + EffectivePort(v)) == Lower(v.hostname) + ":" + EffectivePort(v);
    assert Lower(u.hostname) + "" == Lower(u.hostname) && Lower(v.hostname) + "" == Lower(v.hostname);
  }

  lemma LowerKeepsLength(s: string)
    ensures |Lower(s)| == |s|
  {
  }

  lemma NoColonNoPort(u: RawUrl, v: RawUrl)
    requires v.Parsed? && ':' !in v.hostname
    ensures !PortInHostname(u, v)
  {
    forall i | 0 <= i < |v.hostname|
      ensures Lower(v.hostname)[i] != ':'
    {
      assert v.hostname[i] in v.hostname;
    }
    if u.Parsed? {
      ColonAt(Lower(u.hostname), EffectivePort(u));
    }
  }

  /** A URL whose host can be named: with a hostname, and no colon in hostname or port. */
  predicate PlainHost(u: RawUrl) {
    u.Parsed? && u.hostname != "" && ':' !in u.hostname && ':' !in u.port
  }

  /** The URL parser lets no colon into a port. */
  predicate PlainPort(u: RawUrl) {
    u.Parsed? ==> ':' !in u.port
  }

  /** Two URLs name one place: same hostname and port, or one hostname with the other's port swallowed. */
  predicate SamePlace(u: RawUrl, v: RawUrl) {
    SameHostAndPort(u, v) || PortInHostname(u, v) || PortInHostname(v, u)
  }

  /**
   Which items a target may be used with, colons in hostnames included: exactly those with a URI of the same
   hostname, up to ASCII case, and the same effective port, or whose hostname swallows the port of the other. URIs
   that do not parse or have no host never count, and a target without a host fits nothing.
   */
  lemma HostAllowedIff(item: Item, target: RawUrl)
    requires PlainPort(target) && forall u :: u in item.uris ==> PlainPort(u)
    ensures HostAllowed(item, target) <==> exists u :: u in item.uris && SamePlace(u, target)
  {
    hide CanonicalHost, SameUpToCase, EffectivePort, Lower;
    HostIsNamed(target);
    forall u | u in item.uris && CanonicalHost(target) != ""
      ensures CanonicalHost(u) == CanonicalHost(target) <==> SamePlace(u, target)
    {
      if u.Parsed? && u.hostname != "" {
        SameHostIff(u, target);
      } else {
        HostIsNamed(u);
      }
    }
  }

  /** With no colons in hostnames: exactly the items with a URI of the same hostname, up to case, and effective port. */
  lemma PlainHostAllowedIff(item: Item, target: RawUrl)
    requires PlainHost(target)
    requires forall u :: u in item.uris ==> PlainPort(u) && (u.Parsed? && u.hostname != "" ==> PlainHost(u))
    ensures HostAllowed(item, target) <==> exists u :: u in item.uris && SameHostAndPort(u, target)
  {
    hide CanonicalHost, SameUpToCase, EffectivePort, Lower, HostAllowed;
    HostAllowedIff(item, target);
    forall u | u in item.uris && u.Parsed? && u.hostname != ""
      ensures !PortInHostname(u, target) && !PortInHostname(target, u)
    {
      NoColonNoPort(u, target);
      NoColonNoPort(target, u);
    }
  }

  lemma HostIsNamed(u: RawUrl)
    ensures CanonicalHost(u) == "" <==> !u.Parsed? || u.hostname == ""
  {
    if u.Parsed? {
      LowerKeepsLength(u.hostname);
    }
  }

  /** A target that is missing, does not parse or has no host fits no item, and the refusal says which it was. */
  lemma BadTargetIsRefused(item: Item, target: RawUrl)
    ensures HostRefusal(item, target) == "missing_url" <==> target.Blank?
    ensures HostRefusal(item, target) == "invalid_url" <==> target.Malformed? || (target.Parsed? && target.hostname == "")
    ensures HostRefusal(item, target) in ["", "missing_url", "invalid_url", "host_not_allowed"]
  {
    HostIsNamed(target);
    hide CanonicalHost;
  }

  /** Only fetching is implied by another action: a grant to fetch also lets the item into a child's environment. */
  lemma ActionAllowedIff(actions: seq<ActionKind>, want: ActionKind)
    ensures ActionAllowed(actions, want) <==> want in actions || (want.Env? && Fetch in actions)
  {
  }

  /** A refusal's reason is true of its input, whichever of the conditions is given as the reason. */
  lemma ReasonsAreTrue(input: Input)
    ensures var r := Evaluate(input).reason;
            && (r == "human_cannot_use" ==> !input.principal.kind.Agent?)
            && (r == "agent_revoked" ==> input.principal.revokedAt.Some?)
            && (r == "item_archived" ==> input.item.archived)
            && (r == "no_grant" ==> input.grant.None?)
    ensures input.grant.Some? ==>
              var r, g := Evaluate(input).reason, input.grant.value;
              && (r == "wrong_org" ==> g.orgId != input.principal.orgId || g.orgId != input.item.orgId)
              && (r == "wrong_agent" ==> g.agentId != input.principal.id)
              && (r == "wrong_item" ==> g.itemId != input.item.id)
              && (r == "grant_expired" ==> g.expiresAt.Some? && g.expiresAt.value <= input.now)
              && (r == "action_not_allowed" ==> input.action !in g.actions)
              && (r in ["missing_url", "invalid_url", "host_not_allowed"] ==>
                    input.action.Fetch? && HostRefusal(input.item, input.target) == r)
              && (r == "unknown_level" ==> g.level.OtherLevel?)
              && (r == "need_approval" ==> input.approval.None? || input.approval.value.grantId != g.id)
              && (r == "approval_expired" ==> input.approval.Some? && input.approval.value.expiresAt <= input.now)
    ensures Evaluate(input).decision == Allow <==> Evaluate(input).reason == ""
  {
    BadTargetIsRefused(input.item, input.target);
    hide HostRefusal;
  }

  /** An answer names an approval exactly when it rests on one, and then that one. */
  lemma ApprovalIsNamed(input: Input)
    ensures var r := Evaluate(input);
            if r.decision == Allow && input.grant.value.level != Level2
            then input.approval.Some? && r.approvalId == input.approval.value.id
            else r.approvalId == ""
  {
    hide HostRefusal, ActionAllowed;
  }

  /** A refusal gives the first reason there is, in the order in which they are looked for. */
  lemma FirstReasonIsGiven(input: Input)
    ensures var r := Evaluate(input).reason;
            var agent := input.principal.kind == Agent && input.principal.revokedAt == None;
            && (r == "human_cannot_use" <==> input.principal.kind != Agent)
            && (r == "agent_revoked" <==> input.principal.kind == Agent && input.principal.revokedAt != None)
            && (r == "item_archived" <==> agent && input.item.archived)
            && (r == "no_grant" <==> agent && !input.item.archived && input.grant == None)
    ensures input.principal.kind == Agent && input.principal.revokedAt == None && !input.item.archived &&
            input.grant != None ==>
              var r, g := Evaluate(input).reason, input.grant.value;
              var org := g.orgId == input.principal.orgId == input.item.orgId;
              && (r == "wrong_org" <==> !org)
              && (r == "wrong_agent" <==> org && g.agentId != input.principal.id)
              && (r == "wrong_item" <==> org && g.agentId == input.principal.id && g.itemId != input.item.id)
  {
    BadTargetIsRefused(input.item, input.target);
    hide HostRefusal, ActionAllowed;
  }

  /** The rest of that order, for a grant of this agent's for this item. */
  lemma LaterReasonIsGiven(input: Input)
    requires Evaluate(input).reason !in
               ["human_cannot_use", "agent_revoked", "item_archived", "no_grant", "wrong_org", "wrong_agent", "wrong_item"]
    ensures input.grant.Some?
    ensures var r, g := Evaluate(input).reason, input.grant.value;
            var lasts := g.expiresAt == None || input.now < g.expiresAt.value;
            var covers := lasts && (input.action in g.actions || (input.action == Env && Fetch in g.actions));
            && (r == "grant_expired" <==> !lasts)
            && (r == "action_not_allowed" <==> lasts && !covers)
            && (covers && input.action == Fetch && HostRefusal(input.item, input.target) != "" ==>
                  r == HostRefusal(input.item, input.target))
            && (r == "unknown_level" <==>
                  covers && (input.action == Fetch ==> HostRefusal(input.item, input.target) == "") && g.level == OtherLevel)
    ensures Evaluate(input).decision == NeedApproval ==>
              Evaluate(input).reason ==
              if input.approval.Some? && input.approval.value.grantId == input.grant.value.id
              then "approval_expired" else "need_approval"
  {
    BadTargetIsRefused(input.item, input.target);
    hide HostRefusal;
  }
}
