/**
 The values every part of the broker passes around: principals, items, grants,
 approvals, sessions and audit rows. Times are integers in nanoseconds; a URL is
 what the URL parser makes of it.
 */
module Protocol {

  datatype Option<+T> = None | Some(value: T)

  datatype Result<+T, +E> = Ok(value: T) | Err(error: E)

  ghost predicate Distinct<T>(s: seq<T>) {
    forall i, j :: 0 <= i < j < |s| ==> s[i] != s[j]
  }

  lemma Regroup<T>(a: seq<T>, b: seq<T>, c: seq<T>)
    ensures a + (b + c) == a + b + c
  {
  }

  type Time = int

  const SECOND: Time := 1_000_000_000

  datatype PrincipalKind = Human | Agent | NoPrincipal

  datatype Owner = Owner(kind: string, id: string)

  datatype Principal =
    Principal(kind: PrincipalKind, id: string, orgId: string, owner: Owner, revokedAt: Option<Time>)

  datatype ItemKind = ApiKey | OAuth | Ssh | File | Passkey | Card | Identity | NoItem
  {
    /** Whether Use may touch this kind. */
    predicate Injects() {
      !(Ssh? || File? || Passkey? || Card? || Identity?)
    }

    /** Whether the fill host may write this kind. */
    predicate Fillable() {
      ApiKey? || Passkey? || Card? || Identity?
    }
  }

  /** `Blank` is the empty string, `Malformed` what the URL parser refuses or what has no host. */
  datatype RawUrl = Blank | Malformed | Parsed(scheme: string, hostname: string, port: string)

  datatype Item =
    Item(id: string, orgId: string, kind: ItemKind, uris: seq<RawUrl>, archived: bool, hasTotp: bool)

  datatype ActionKind = Fetch | Env | Revoke | OtherAction

  datatype GrantLevel = Level1 | Level2 | OtherLevel

  datatype Grant = Grant(id: string, orgId: string, agentId: string, itemId: string,
                         level: GrantLevel, actions: seq<ActionKind>, expiresAt: Option<Time>)

  datatype Approval = Approval(id: string, grantId: string, humanId: string, expiresAt: Time)

  datatype Decision = Allow | Deny | NeedApproval

  datatype UseResult = UseResult(decision: Decision, reason: string, approvalId: string)

  datatype AuditEvent = AuditEvent(time: Time, orgId: string, agentId: string, itemId: string,
                                   action: ActionKind, decision: Decision, reason: string, approvalId: string)

  /** `ttl` and `maxTtl` are whole seconds; `maxUses == 0` means unlimited. */
  datatype Session = Session(id: string, orgId: string, agentId: string, createdAt: Time, expiresAt: Time,
                             revokedAt: Option<Time>, renewedAt: Option<Time>,
                             ttl: int, maxTtl: int, maxUses: int, uses: int)

  /** What a missing row leaves in the fields of an authorization snapshot. */
  const NO_PRINCIPAL := Principal(NoPrincipal, "", "", Owner("", ""), None)
  const NO_ITEM := Item("", "", NoItem, [], false, false)
}
