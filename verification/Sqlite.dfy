/**
 The SQLite vault as the object it is: tables, a master key and a cache of data keys.
 A database call may fail at any point; a failed transaction leaves the tables as they
 were at its beginning. Each method is proved against its function in `Vault`.
 */
module SqliteStore {
  import opened Protocol
  import opened Sealing
  import opened Vault

  /** Whether the next database call fails; on a healthy database none does. */
  method CallFails(healthy: bool) returns (fails: bool)
    ensures healthy ==> !fails
  {
    if healthy {
      return false;
    }
    fails := *;
  }

  /** Nothing changed, unless the owner's data key was made. */
  predicate OnlyKeyMade(before: Tables, after: Tables, master: Bytes, o: Owner, d: Draw) {
    after == before || after == before.(keys := WithKey(before.keys, master, o, d))
  }

  class Sqlite {
    const master: Bytes
    var tables: Tables
    var deks: map<Owner, Bytes>

    /** Every cached key is the one the table opens to. */
    ghost predicate Valid()
      reads this
    {
      forall o :: o in deks ==> ValidOwner(o) && DataKey(tables.keys, master, o) == Some(deks[o])
    }

    constructor (master: Bytes, tables: Tables)
      ensures Valid() && this.master == master && this.tables == tables && deks == map[]
    {
      this.master := master;
      this.tables := tables;
      deks := map[];
    }

    /** Cache, load, create if absent, load again, open, cache. A failing call may leave the new key in the table. */
    method OwnerDek(o: Owner, d: Draw, healthy: bool) returns (r: Result<Bytes, VaultError>)
      requires Valid()
      modifies this
      ensures Valid()
      ensures healthy ==> r != Err(DbFailed)
      ensures r == Err(DbFailed) ==> OnlyKeyMade(old(tables), tables, master, o, d)
      ensures r != Err(DbFailed) ==>
                && tables == old(tables).(keys := WithKey(old(tables).keys, master, o, d))
                && r == (match OwnerKey(old(tables).keys, master, o, d)
                         case Some(key) => Ok(key)
                         case None => Err(if ValidOwner(o) then AuthFailed else BadOwner))
    {
      if !ValidOwner(o) {
        return Err(BadOwner);
      }
      if o in deks {
        return Ok(deks[o]);
      }
      var fault := CallFails(healthy);
      if fault {
        return Err(DbFailed);
      }
      if o !in tables.keys {
        fault := CallFails(healthy);
        if fault {
          return Err(DbFailed);
        }
        tables := tables.(keys := InsertIfAbsent(tables.keys, o, Seal(master, d.wrapNonce, d.key)));
        fault := CallFails(healthy);
        if fault {
          return Err(DbFailed);
        }
      }
      var plain := Open(master, tables.keys[o]);
      if plain.None? {
        return Err(AuthFailed);
      }
      deks := deks[o := plain.value];
      return Ok(plain.value);
    }

    /** A transaction that fails leaves the items and their history as they were; the key was made before it began. */
    method PutItem(id: string, owner: Owner, plain: Bytes, d: Draw, healthy: bool) returns (r: Result<(), VaultError>)
      requires Valid()
      modifies this
      ensures Valid()
      ensures healthy ==> r != Err(DbFailed)
      ensures r == Err(DbFailed) ==> OnlyKeyMade(old(tables), tables, master, owner, d)
      ensures r != Err(DbFailed) ==> (tables, r) == Vault.PutItem(old(tables), master, id, owner, plain, d)
    {
      var dek := OwnerDek(owner, d, healthy);
      if dek.Err? {
        return Err(dek.error);
      }
      var blob := Seal(dek.value, d.sealNonce, plain);
      var fault := CallFails(healthy);
      if fault {
        return Err(DbFailed);
      }
      var begun := tables;
      if id in tables.items && tables.items[id].owner != owner {
        return Err(OwnerChanged);
      }
      var filed := FileCurrent(id, healthy);
      if !filed {
        tables := begun;
        return Err(DbFailed);
      }
      tables := tables.(items := tables.items[id := ItemRow(owner, blob)]);
      fault := CallFails(healthy);
      if fault {
        tables := begun;
        return Err(DbFailed);
      }
      return Ok(());
    }

    method FileCurrent(itemId: string, healthy: bool) returns (ok: bool)
      requires Valid()
      modifies this`tables
      ensures Valid()
      ensures healthy ==> ok
      ensures tables == if ok then Snapshot(old(tables), itemId) else old(tables)
    {
      var fault := CallFails(healthy);
      if fault {
        return false;
      }
      if itemId in tables.items {
        var next := tables.sequence + 1;
        tables := tables.(sequence := next,
                          versions := tables.versions[next := VersionRow(itemId, tables.items[itemId].secret)]);
      }
      return true;
    }

    method RestoreVersion(itemId: string, version: int, healthy: bool) returns (r: Result<(), VaultError>)
      requires Valid()
      modifies this
      ensures Valid()
      ensures healthy ==> r != Err(DbFailed)
      ensures r == Err(DbFailed) ==> tables == old(tables)
      ensures r != Err(DbFailed) ==> (tables, r) == Vault.RestoreVersion(old(tables), itemId, version)
    {
      var begun := tables;
      var filed := FileCurrent(itemId, healthy);
      if !filed {
        return Err(DbFailed);
      }
      if version !in tables.versions || tables.versions[version].itemId != itemId {
        tables := begun;
        return Err(NotFound);
      }
      var blob := tables.versions[version].secret;
      if itemId in tables.items {
        tables := tables.(items := tables.items[itemId := tables.items[itemId].(secret := blob)]);
      }
      var fault := CallFails(healthy);
      if fault {
        tables := begun;
        return Err(DbFailed);
      }
      return Ok(());
    }

    /** Two statements and no transaction: a failure in between leaves the item without its history. */
    method DeleteItem(id: string, healthy: bool) returns (r: Result<(), VaultError>)
      requires Valid()
      modifies this
      ensures Valid()
      ensures healthy ==> r != Err(DbFailed)
      ensures r == Err(DbFailed) ==>
                tables == old(tables) || tables == old(tables).(versions := Vault.DeleteItem(old(tables), id).0.versions)
      ensures r != Err(DbFailed) ==> (tables, r) == Vault.DeleteItem(old(tables), id)
    {
      var fault := CallFails(healthy);
      if fault {
        return Err(DbFailed);
      }
      tables := tables.(versions := map v | v in tables.versions && tables.versions[v].itemId != id :: tables.versions[v]);
      fault := CallFails(healthy);
      if fault {
        return Err(DbFailed);
      }
      r := if id in tables.items then Ok(()) else Err(NotFound);
      tables := tables.(items := tables.items - {id});
    }

    method Secret(id: string, d: Draw, healthy: bool) returns (r: Result<Bytes, VaultError>)
      requires Valid()
      modifies this
      ensures Valid()
      ensures healthy ==> r != Err(DbFailed)
      ensures r == Err(DbFailed) ==>
                tables == old(tables) ||
                (id in old(tables).items && OnlyKeyMade(old(tables), tables, master, old(tables).items[id].owner, d))
      ensures r != Err(DbFailed) ==> (tables, r) == ReadSecret(old(tables), master, id, d)
    {
      var fault := CallFails(healthy);
      if fault {
        return Err(DbFailed);
      }
      if id !in tables.items {
        return Err(NotFound);
      }
      var row := tables.items[id];
      var dek := OwnerDek(row.owner, d, healthy);
      if dek.Err? {
        return Err(dek.error);
      }
      var plain := Open(dek.value, row.secret);
      return if plain.Some? then Ok(plain.value) else Err(AuthFailed);
    }

    /** One pass over a query's rows, in its order. `None` is a failure, its own or the database's. */
    method RewrapRows(rows: seq<Row>, draws: seq<Draw>, healthy: bool) returns (r: Option<(seq<Blob>, nat)>)
      requires Valid() && |rows| == |draws|
      modifies this
      ensures Valid()
      ensures r.Some? ==>
                var p := Vault.RewrapRows(old(tables).keys, master, rows, draws);
                && p.ok && r.value == (p.secrets, p.resolved)
                && tables == old(tables).(keys := p.keys)
      ensures r.Some? ==> |r.value.0| == |rows|
      ensures healthy ==> (r.Some? <==> Vault.RewrapRows(old(tables).keys, master, rows, draws).ok)
    {
      var secrets: seq<Blob>, resolved: nat := [], 0;
      for n := 0 to |rows|
        invariant Valid()
        invariant Vault.RewrapRows(old(tables).keys, master, rows[..n], draws[..n])
                  == Pass(true, tables.keys, secrets, resolved)
        invariant tables == old(tables).(keys := tables.keys)
      {
        assert rows[..n + 1][..n] == rows[..n] && draws[..n + 1][..n] == draws[..n];
        var row := rows[n];
        var fault := CallFails(healthy);
        if fault {
          return None;
        }
        var plain := Open(master, row.secret);
        if plain.Some? {
          var dek := OwnerDek(row.owner, draws[n], healthy);
          if dek == Err(DbFailed) {
            return None;
          }
          if dek.Err? {
            BrokenStays(old(tables).keys, master, rows, draws, n + 1);
            return None;
          }
          secrets := secrets + [Seal(dek.value, draws[n].sealNonce, plain.value)];
          resolved := resolved + 1;
        } else {
          if row.owner in tables.keys {
            var dek := Open(master, tables.keys[row.owner]);
            if dek.Some? {
              if Open(dek.value, row.secret).None? {
                BrokenStays(old(tables).keys, master, rows, draws, n + 1);
                return None;
              }
              resolved := resolved + 1;
            }
          }
          secrets := secrets + [row.secret];
        }
      }
      assert rows[..|rows|] == rows && draws[..|rows|] == draws;
      return Some((secrets, resolved));
    }

    /**
     The whole migration. Without a success the tables are as they were and the cache is
     empty; with one they are what `Rewrap` says.
     */
    method RewrapLegacy(plan: Plan, healthy: bool) returns (ok: bool)
      requires Valid() && Covers(tables, plan)
      modifies this
      ensures Valid()
      ensures ok ==> Rewrap(old(tables), master, plan) == Some(tables)
      ensures !ok ==> tables == old(tables) && (deks == map[] || deks == old(deks))
      ensures healthy ==> (ok <==> Rewrap(old(tables), master, plan).Some?)
    {
      var fault := CallFails(healthy);
      if fault {
        return false;
      }
      var begun := tables;
      if tables.marked {
        fault := CallFails(healthy);
        if fault {
          deks := map[];
          return false;
        }
        return true;
      }
      var done := BothPasses(plan, healthy);
      if !done {
        tables, deks := begun, map[];
        return false;
      }
      fault := CallFails(healthy);
      if fault {
        tables, deks := begun, map[];
        return false;
      }
      return true;
    }

    /** Items first, then the versions joined with them, then the mark; a failure leaves the cleaning up to the caller. */
    method BothPasses(plan: Plan, healthy: bool) returns (ok: bool)
      requires Valid() && Covers(tables, plan) && !tables.marked
      modifies this
      ensures ok ==> Valid() && Rewrap(old(tables), master, plan) == Some(tables)
      ensures healthy ==> (ok <==> Rewrap(old(tables), master, plan).Some?)
    {
      hide SetItems, SetVersions, Vault.RewrapRows;
      ghost var begun := tables;
      var itemRows, versionRows := ItemRows(tables, plan.itemIds), VersionRows(tables, plan.versionIds);
      var items := RewrapRows(itemRows, plan.itemDraws, healthy);
      if items.None? {
        return false;
      }
      tables := tables.(items := SetItems(tables.items, plan.itemIds, items.value.0));
      assert VersionRows(tables, plan.versionIds) == versionRows;
      var vers := RewrapRows(versionRows, plan.versionDraws, healthy);
      if vers.None? {
        return false;
      }
      tables := tables.(versions := SetVersions(tables.versions, plan.versionIds, vers.value.0));
      var total := |plan.itemIds| + |plan.versionIds|;
      if total > 0 && items.value.1 + vers.value.1 == total {
        tables := tables.(marked := true);
      }
      assert tables == Settled(begun, plan, items.value.0, vers.value.0, tables.keys, items.value.1 + vers.value.1);
      return true;
    }
  }

  lemma {:induction false} BrokenStays(keys: KeyTable, master: Bytes, rows: seq<Row>, draws: seq<Draw>, n: nat)
    requires |rows| == |draws| && n <= |rows|
    requires !Vault.RewrapRows(keys, master, rows[..n], draws[..n]).ok
    ensures !Vault.RewrapRows(keys, master, rows, draws).ok
  {
    if n == |rows| {
      assert rows[..n] == rows && draws[..n] == draws;
    } else {
      var m := |rows| - 1;
      assert rows[..m][..n] == rows[..n] && draws[..m][..n] == draws[..n];
      BrokenStays(keys, master, rows[..m], draws[..m], n);
    }
  }
}
