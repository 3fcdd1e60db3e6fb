/**
 The SQLite vault's tables, where every secret is sealed under its item's owner's
 data key, and what its item calls do to them. `Draw` is the randomness one call uses.
 */
module Vault {
  import opened Protocol
  import opened Sealing

  datatype ItemRow = ItemRow(owner: Owner, secret: Blob)

  datatype VersionRow = VersionRow(itemId: string, secret: Blob)

  /** `sequence` is the last version number ever given out; `marked` is the rewrap's completion mark. */
  datatype Tables = Tables(
    items: map<string, ItemRow>,
    versions: map<nat, VersionRow>,
    keys: KeyTable,
    sequence: nat,
    marked: bool)

  datatype Draw = Draw(key: Bytes, wrapNonce: nat, sealNonce: nat)

  /** `DbFailed` is a database call that failed, whatever its reason. */
  datatype VaultError = NotFound | BadOwner | OwnerChanged | AuthFailed | DbFailed

  // ---- data keys ----

  /** Create if absent, then open what is there. */
  function WithKey(keys: KeyTable, master: Bytes, o: Owner, d: Draw): KeyTable {
    if ValidOwner(o) then InsertIfAbsent(keys, o, Seal(master, d.wrapNonce, d.key)) else keys
  }

  function OwnerKey(keys: KeyTable, master: Bytes, o: Owner, d: Draw): Option<Bytes> {
    if ValidOwner(o) then DataKey(WithKey(keys, master, o, d), master, o) else None
  }

  // ---- items and versions ----

  function Snapshot(t: Tables, itemId: string): Tables {
    if itemId !in t.items then t
    else t.(sequence := t.sequence + 1,
            versions := t.versions[t.sequence + 1 := VersionRow(itemId, t.items[itemId].secret)])
  }

  function PutItem(t: Tables, master: Bytes, id: string, owner: Owner, plain: Bytes, d: Draw)
    : (Tables, Result<(), VaultError>)
  {
    if !ValidOwner(owner) then (t, Err(BadOwner))
    else
      var u := t.(keys := WithKey(t.keys, master, owner, d));
      match OwnerKey(t.keys, master, owner, d)
      case None => (u, Err(AuthFailed))
      case Some(key) =>
        if id in t.items && t.items[id].owner != owner then (u, Err(OwnerChanged))
        else
          var v := Snapshot(u, id);
          (v.(items := v.items[id := ItemRow(owner, Seal(key, d.sealNonce, plain))]), Ok(()))
  }

  /** Files the current secret first, then looks for the version, so the number just given out is found too. */
  function RestoreVersion(t: Tables, itemId: string, version: int): (Tables, Result<(), VaultError>) {
    var u := Snapshot(t, itemId);
    if version !in u.versions || u.versions[version].itemId != itemId then (t, Err(NotFound))
    else
      (if itemId !in u.items then u
       else u.(items := u.items[itemId := u.items[itemId].(secret := u.versions[version].secret)]),
       Ok(()))
  }

  function DeleteItem(t: Tables, id: string): (Tables, Result<(), VaultError>) {
    (t.(versions := map v | v in t.versions && t.versions[v].itemId != id :: t.versions[v],
        items := t.items - {id}),
     if id in t.items then Ok(()) else Err(NotFound))
  }

  /** Reading also goes through the create-if-absent path of the data key. */
  function ReadSecret(t: Tables, master: Bytes, id: string, d: Draw): (Tables, Result<Bytes, VaultError>) {
    if id !in t.items then (t, Err(NotFound))
    else
      var o := t.items[id].owner;
      var u := t.(keys := WithKey(t.keys, master, o, d));
      match OwnerKey(t.keys, master, o, d)
      case None => (u, Err(if ValidOwner(o) then AuthFailed else BadOwner))
      case Some(key) =>
        match Open(key, t.items[id].secret)
        case None => (u, Err(AuthFailed))
        case Some(plain) => (u, Ok(plain))
  }

  // ---- moving master-sealed rows under their owners' keys ----

  /** One row as the rewrap's query reads it. */
  datatype Row = Row(owner: Owner, secret: Blob)

  /** `Same(true)` is a row found to be owner-sealed already, `Same(false)` one that is skipped. */
  datatype Turn = Broken | Same(resolved: bool) | Moved(secret: Blob)

  function TurnOf(keys: KeyTable, master: Bytes, r: Row, d: Draw): Turn {
    match Open(master, r.secret)
    case Some(plain) =>
      (match OwnerKey(keys, master, r.owner, d)
       case None => Broken
       case Some(key) => Moved(Seal(key, d.sealNonce, plain)))
    case None =>
      if r.owner !in keys then Same(false)
      else
        match Open(master, keys[r.owner])
        case None => Same(false)
        case Some(key) => if Open(key, r.secret).Some? then Same(true) else Broken
  }

  function KeysAfter(keys: KeyTable, master: Bytes, r: Row, d: Draw): KeyTable {
    if Open(master, r.secret).Some? then WithKey(keys, master, r.owner, d) else keys
  }

  /** A pass over a table's rows: whether it went through, the keys and secrets it leaves, the rows it vouches for. */
  datatype Pass = Pass(ok: bool, keys: KeyTable, secrets: seq<Blob>, resolved: nat)

  function RewrapRows(keys: KeyTable, master: Bytes, rows: seq<Row>, draws: seq<Draw>): (p: Pass)
    requires |rows| == |draws|
    ensures p.ok ==> |p.secrets| == |rows|
    ensures p.resolved <= |rows|
  {
    if rows == [] then Pass(true, keys, [], 0)
    else
      var n := |rows| - 1;
      var p := RewrapRows(keys, master, rows[..n], draws[..n]);
      if !p.ok then p
      else
        var after := KeysAfter(p.keys, master, rows[n], draws[n]);
        match TurnOf(p.keys, master, rows[n], draws[n])
        case Broken => Pass(false, after, p.secrets, p.resolved)
        case Same(resolved) =>
          Pass(true, after, p.secrets + [rows[n].secret], if resolved then p.resolved + 1 else p.resolved)
        case Moved(secret) => Pass(true, after, p.secrets + [secret], p.resolved + 1)
  }

  function ItemRows(t: Tables, ids: seq<string>): seq<Row>
    requires forall i :: i in ids ==> i in t.items
  {
    seq(|ids|, i requires 0 <= i < |ids| => Row(t.items[ids[i]].owner, t.items[ids[i]].secret))
  }

  /** Versions joined with their items; a version without an item is not in the join. */
  predicate Joined(t: Tables, v: nat) {
    v in t.versions && t.versions[v].itemId in t.items
  }

  function JoinedRow(t: Tables, v: nat): Row
    requires Joined(t, v)
  {
    Row(t.items[t.versions[v].itemId].owner, t.versions[v].secret)
  }

  function VersionRows(t: Tables, ids: seq<nat>): seq<Row>
    requires forall n :: 0 <= n < |ids| ==> Joined(t, ids[n])
  {
    seq(|ids|, i requires 0 <= i < |ids| => JoinedRow(t, ids[i]))
  }

  function SetItems(items: map<string, ItemRow>, ids: seq<string>, secrets: seq<Blob>): (r: map<string, ItemRow>)
    requires |secrets| == |ids|
    requires forall i :: i in ids ==> i in items
    ensures r.Keys == items.Keys
    ensures forall i :: i in items ==> r[i].owner == items[i].owner
  {
    if ids == [] then items
    else
      var n := |ids| - 1;
      var r := SetItems(items, ids[..n], secrets[..n]);
      r[ids[n] := r[ids[n]].(secret := secrets[n])]
  }

  function SetVersions(versions: map<nat, VersionRow>, ids: seq<nat>, secrets: seq<Blob>): (r: map<nat, VersionRow>)
    requires |secrets| == |ids|
    requires forall n :: 0 <= n < |ids| ==> ids[n] in versions
    ensures r.Keys == versions.Keys
    ensures forall v :: v in versions ==> r[v].itemId == versions[v].itemId
  {
    if ids == [] then versions
    else
      var n := |ids| - 1;
      var r := SetVersions(versions, ids[..n], secrets[..n]);
      r[ids[n] := r[ids[n]].(secret := secrets[n])]
  }

  /** The order the two queries return their rows in, and the randomness each row uses. */
  datatype Plan = Plan(itemIds: seq<string>, itemDraws: seq<Draw>, versionIds: seq<nat>, versionDraws: seq<Draw>)

  ghost predicate Covers(t: Tables, p: Plan) {
    && |p.itemIds| == |p.itemDraws| && |p.versionIds| == |p.versionDraws|
    && Distinct(p.itemIds) && Distinct(p.versionIds)
    && (forall i :: i in p.itemIds <==> i in t.items)
    && (forall n :: 0 <= n < |p.versionIds| ==> Joined(t, p.versionIds[n]))
    && (forall v :: Joined(t, v) ==> v in p.versionIds)
  }

  /** What the two passes leave, the mark included: it is set only when every row of a non-empty vault is vouched for. */
  function Settled(t: Tables, p: Plan, items: seq<Blob>, versions: seq<Blob>, keys: KeyTable, resolved: nat): Tables
    requires |items| == |p.itemIds| && |versions| == |p.versionIds|
    requires forall i :: i in p.itemIds ==> i in t.items
    requires forall n :: 0 <= n < |p.versionIds| ==> p.versionIds[n] in t.versions
  {
    var total := |p.itemIds| + |p.versionIds|;
    t.(items := SetItems(t.items, p.itemIds, items),
       versions := SetVersions(t.versions, p.versionIds, versions),
       keys := keys,
       marked := total > 0 && resolved == total)
  }

  /** The whole transaction when no database call fails: None stands for a rollback. */
  ghost function Rewrap(t: Tables, master: Bytes, p: Plan): Option<Tables>
    requires Covers(t, p)
  {
    if t.marked then Some(t)
    else
      var a := RewrapRows(t.keys, master, ItemRows(t, p.itemIds), p.itemDraws);
      if !a.ok then None
      else
        var b := RewrapRows(a.keys, master, VersionRows(t, p.versionIds), p.versionDraws);
        if !b.ok then None
        else Some(Settled(t, p, a.secrets, b.secrets, b.keys, a.resolved + b.resolved))
  }
}
