/**
 Item history in the sealed vault. Over every run of puts, restores, deletes and reads
 the sealed tables are a plaintext vault under another encoding; every version holds what
 was current when it was taken, and can be put back.
 */
module History {
  import opened Protocol
  import opened Sealing
  import opened Vault
  import opened Rewrapping

  // ---- the plaintext vault the sealed one stands for ----

  datatype Current = Current(owner: Owner, plain: Bytes)

  datatype Past = Past(itemId: string, plain: Bytes)

  datatype Plain = Plain(items: map<string, Current>, versions: map<nat, Past>, sequence: nat)

  datatype Action =
    | Put(id: string, owner: Owner, plain: Bytes, draw: Draw)
    | Restore(id: string, version: int)
    | Delete(id: string)
    | Read(id: string, draw: Draw)

  function File(s: Plain, id: string): Plain {
    if id !in s.items then s
    else s.(sequence := s.sequence + 1, versions := s.versions[s.sequence + 1 := Past(id, s.items[id].plain)])
  }

  function PlainStep(s: Plain, a: Action): Plain {
    match a
    case Put(id, owner, plain, _) =>
      if !ValidOwner(owner) || (id in s.items && s.items[id].owner != owner) then s
      else
        var f := File(s, id);
        f.(items := f.items[id := Current(owner, plain)])
    case Restore(id, v) =>
      var f := File(s, id);
      if v !in f.versions || f.versions[v].itemId != id || id !in s.items then s
      else f.(items := f.items[id := f.items[id].(plain := f.versions[v].plain)])
    case Delete(id) =>
      s.(items := s.items - {id}, versions := map v | v in s.versions && s.versions[v].itemId != id :: s.versions[v])
    case Read(_, _) => s
  }

  // ---- the sealed vault ----

  function Step(t: Tables, master: Bytes, a: Action): Tables {
    match a
    case Put(id, owner, plain, d) => PutItem(t, master, id, owner, plain, d).0
    case Restore(id, v) => RestoreVersion(t, id, v).0
    case Delete(id) => DeleteItem(t, id).0
    case Read(id, d) => ReadSecret(t, master, id, d).0
  }

  function After(t: Tables, master: Bytes, run: seq<Action>): Tables {
    if run == [] then t else Step(After(t, master, run[..|run| - 1]), master, run[|run| - 1])
  }

  const NO_TABLES := Tables(map[], map[], map[], 0, false)

  /** Every blob, current or past, is sealed under its item's owner's key; versions belong to items and are numbered. */
  predicate Intact(t: Tables, master: Bytes) {
    && (forall o :: o in t.keys ==> ValidOwner(o) && DataKey(t.keys, master, o).Some?)
    && (forall i :: i in t.items ==> OwnerSealed(t.keys, master, t.items[i].owner, t.items[i].secret))
    && (forall v :: v in t.versions ==>
          && v <= t.sequence
          && t.versions[v].itemId in t.items
          && OwnerSealed(t.keys, master, t.items[t.versions[v].itemId].owner, t.versions[v].secret))
  }

  /** What a blob opens to under its owner's key; empty when it does not open. */
  function Text(keys: KeyTable, master: Bytes, o: Owner, blob: Blob): Bytes {
    if OwnerSealed(keys, master, o, blob) then Open(DataKey(keys, master, o).value, blob).value else ""
  }

  function Now(t: Tables, master: Bytes, id: string): Bytes
    requires id in t.items
  {
    Text(t.keys, master, t.items[id].owner, t.items[id].secret)
  }

  function OwnerOf(t: Tables, id: string): Owner {
    if id in t.items then t.items[id].owner else Owner("", "")
  }

  function ViewItems(t: Tables, master: Bytes): map<string, Current> {
    map i | i in t.items :: Current(t.items[i].owner, Text(t.keys, master, t.items[i].owner, t.items[i].secret))
  }

  /** Versions open under the key their item's owner has today. */
  function ViewVersions(t: Tables, master: Bytes): map<nat, Past> {
    map v | v in t.versions ::
      Past(t.versions[v].itemId, Text(t.keys, master, OwnerOf(t, t.versions[v].itemId), t.versions[v].secret))
  }

  function View(t: Tables, master: Bytes): Plain {
    Plain(ViewItems(t, master), ViewVersions(t, master), t.sequence)
  }

  // ---- one step ----

  lemma MoreKeys(t: Tables, master: Bytes, o: Owner, d: Draw)
    requires Intact(t, master)
    ensures var u := t.(keys := WithKey(t.keys, master, o, d));
            Intact(u, master) && View(u, master) == View(t, master)
    ensures ValidOwner(o) ==> OwnerKey(t.keys, master, o, d).Some?
  {
    var u := t.(keys := WithKey(t.keys, master, o, d));
    forall p, blob | OwnerSealed(t.keys, master, p, blob)
      ensures OwnerSealed(u.keys, master, p, blob) && Text(u.keys, master, p, blob) == Text(t.keys, master, p, blob)
    {
    }
    assert ViewItems(u, master) == ViewItems(t, master);
    assert ViewVersions(u, master) == ViewVersions(t, master);
  }

  lemma FileKeepsIntact(t: Tables, master: Bytes, id: string)
    requires Intact(t, master)
    ensures Intact(Snapshot(t, id), master)
  {
    hide OwnerSealed;
  }

  lemma FileViewsItems(t: Tables, master: Bytes, id: string)
    ensures ViewItems(Snapshot(t, id), master) == ViewItems(t, master)
  {
    hide Text;
  }

  lemma FileViewsVersions(t: Tables, master: Bytes, id: string)
    ensures ViewVersions(Snapshot(t, id), master) ==
            if id !in t.items then ViewVersions(t, master)
            else ViewVersions(t, master)[t.sequence + 1 := Past(id, Now(t, master, id))]
  {
    hide Text;
  }

  lemma FileRefines(t: Tables, master: Bytes, id: string)
    requires Intact(t, master)
    ensures Intact(Snapshot(t, id), master)
    ensures View(Snapshot(t, id), master) == File(View(t, master), id)
  {
    FileKeepsIntact(t, master, id);
    FileViewsItems(t, master, id);
    FileViewsVersions(t, master, id);
    hide Intact, Text, ViewVersions;
  }

  /** Writing an item's blob under its owner's key is writing its plaintext. */
  lemma WriteRefines(t: Tables, master: Bytes, id: string, owner: Owner, secret: Blob)
    requires Intact(t, master)
    requires id in t.items ==> t.items[id].owner == owner
    requires OwnerSealed(t.keys, master, owner, secret)
    ensures var u := t.(items := t.items[id := ItemRow(owner, secret)]);
            && Intact(u, master)
            && View(u, master) == View(t, master).(
               items := View(t, master).items[id := Current(owner, Text(t.keys, master, owner, secret))])
  {
    hide OwnerSealed, Text;
    var u := t.(items := t.items[id := ItemRow(owner, secret)]);
    assert ViewItems(u, master) == ViewItems(t, master)[id := Current(owner, Text(t.keys, master, owner, secret))];
    assert ViewVersions(u, master) == ViewVersions(t, master);
  }

  lemma DeleteRefines(t: Tables, master: Bytes, id: string)
    requires Intact(t, master)
    ensures Intact(DeleteItem(t, id).0, master)
    ensures View(DeleteItem(t, id).0, master) == PlainStep(View(t, master), Delete(id))
  {
    hide OwnerSealed, Text;
    var u := DeleteItem(t, id).0;
    var p := PlainStep(View(t, master), Delete(id));
    assert ViewItems(u, master) == p.items;
    assert ViewVersions(u, master) == p.versions;
  }

  /** Each sealed call does to the plaintexts exactly what the plaintext call does. */
  lemma StepRefines(t: Tables, master: Bytes, a: Action)
    requires Intact(t, master)
    ensures Intact(Step(t, master, a), master)
    ensures View(Step(t, master, a), master) == PlainStep(View(t, master), a)
  {
    hide Intact, View;
    match a
    case Put(id, owner, plain, d) => PutRefines(t, master, id, owner, plain, d);
    case Restore(id, v) => RestoreRefines(t, master, id, v);
    case Delete(id) => DeleteRefines(t, master, id);
    case Read(id, d) =>
      if id in t.items {
        MoreKeys(t, master, t.items[id].owner, d);
      }
  }

  lemma PutRefines(t: Tables, master: Bytes, id: string, owner: Owner, plain: Bytes, d: Draw)
    requires Intact(t, master)
    ensures Intact(PutItem(t, master, id, owner, plain, d).0, master)
    ensures View(PutItem(t, master, id, owner, plain, d).0, master)
            == PlainStep(View(t, master), Put(id, owner, plain, d))
  {
    if ValidOwner(owner) {
      var u := t.(keys := WithKey(t.keys, master, owner, d));
      MoreKeys(t, master, owner, d);
      if !(id in t.items && t.items[id].owner != owner) {
        FileRefines(u, master, id);
        var key := OwnerKey(t.keys, master, owner, d).value;
        WriteRefines(Snapshot(u, id), master, id, owner, Seal(key, d.sealNonce, plain));
      }
    }
  }

  lemma RestoreRefines(t: Tables, master: Bytes, id: string, v: int)
    requires Intact(t, master)
    ensures Intact(RestoreVersion(t, id, v).0, master)
    ensures View(RestoreVersion(t, id, v).0, master) == PlainStep(View(t, master), Restore(id, v))
  {
    var u := Snapshot(t, id);
    FileRefines(t, master, id);
    if v in u.versions && u.versions[v].itemId == id {
      WriteRefines(u, master, id, u.items[id].owner, u.versions[v].secret);
    }
  }

  // ---- whole runs ----

  function PlainAfter(s: Plain, run: seq<Action>): Plain {
    if run == [] then s else PlainStep(PlainAfter(s, run[..|run| - 1]), run[|run| - 1])
  }

  /** In every reachable state all of history is openable, and the plaintexts are those of the plaintext vault. */
  lemma {:induction false} RunRefines(t: Tables, master: Bytes, run: seq<Action>)
    requires Intact(t, master)
    ensures Intact(After(t, master, run), master)
    ensures View(After(t, master, run), master) == PlainAfter(View(t, master), run)
  {
    if run != [] {
      RunRefines(t, master, run[..|run| - 1]);
      StepRefines(After(t, master, run[..|run| - 1]), master, run[|run| - 1]);
    }
  }

  /** An item keeps its owner as long as it exists, and its versions as long as they do. */
  lemma PlainStepKeeps(s: Plain, a: Action)
    ensures forall i :: i in s.items && i in PlainStep(s, a).items ==> PlainStep(s, a).items[i].owner == s.items[i].owner
    ensures forall v :: v in s.versions && v <= s.sequence && v in PlainStep(s, a).versions ==>
              PlainStep(s, a).versions[v] == s.versions[v]
    ensures s.sequence <= PlainStep(s, a).sequence <= s.sequence + 1
    ensures forall v :: v in PlainStep(s, a).versions && v !in s.versions ==>
              v == s.sequence + 1 == PlainStep(s, a).sequence &&
              PlainStep(s, a).versions[v].itemId in s.items &&
              PlainStep(s, a).versions[v].plain == s.items[PlainStep(s, a).versions[v].itemId].plain
  {
  }

  predicate Numbered(s: Plain) {
    forall v :: v in s.versions ==> v <= s.sequence
  }

  /** Step k of the run took version v: it was the next number, and was filed with the item's current secret. */
  predicate TookAt(s: Plain, run: seq<Action>, k: nat, v: nat, past: Past)
    requires k < |run|
  {
    var before := PlainAfter(s, run[..k]);
    && v == before.sequence + 1
    && PlainAfter(s, run[..k + 1]).sequence == v
    && v in PlainAfter(s, run[..k + 1]).versions && PlainAfter(s, run[..k + 1]).versions[v] == past
    && past.itemId in before.items
    && before.items[past.itemId].plain == past.plain
  }

  /** Every version in the vault holds exactly the secret that was current when it was taken. */
  lemma {:induction false} VersionsAreSnapshots(s: Plain, run: seq<Action>, v: nat) returns (k: nat)
    requires s.versions == map[]
    requires v in PlainAfter(s, run).versions
    ensures Numbered(PlainAfter(s, run))
    ensures k < |run| && TookAt(s, run, k, v, PlainAfter(s, run).versions[v])
  {
    var n := |run| - 1;
    var before := PlainAfter(s, run[..n]);
    PlainStepKeeps(before, run[n]);
    NumberedRun(s, run);
    NumberedRun(s, run[..n]);
    if v in before.versions {
      k := VersionsAreSnapshots(s, run[..n], v);
      assert run[..n][..k] == run[..k] && run[..n][..k + 1] == run[..k + 1];
    } else {
      k := n;
      assert run[..n + 1] == run;
    }
  }

  lemma {:induction false} NumberedRun(s: Plain, run: seq<Action>)
    requires Numbered(s)
    ensures Numbered(PlainAfter(s, run))
    ensures s.sequence <= PlainAfter(s, run).sequence
  {
    if run != [] {
      NumberedRun(s, run[..|run| - 1]);
      PlainStepKeeps(PlainAfter(s, run[..|run| - 1]), run[|run| - 1]);
    }
  }

  /** A version number is given out once in the life of the vault, deletions or not. */
  lemma NumbersAreNotReused(s: Plain, run: seq<Action>, k1: nat, k2: nat, v1: nat, v2: nat, p1: Past, p2: Past)
    requires Numbered(s)
    requires k1 < k2 < |run|
    requires TookAt(s, run, k1, v1, p1) && TookAt(s, run, k2, v2, p2)
    ensures v1 < v2
  {
    var rest := run[k1 + 1..k2];
    assert run[..k2] == run[..k1 + 1] + rest;
    PlainSplits(s, run[..k1 + 1], rest);
    NumberedRun(s, run[..k1 + 1]);
    NumberedRun(PlainAfter(s, run[..k1 + 1]), rest);
  }

  lemma {:induction false} PlainSplits(s: Plain, run: seq<Action>, rest: seq<Action>)
    ensures PlainAfter(s, run + rest) == PlainAfter(PlainAfter(s, run), rest)
  {
    if rest == [] {
      assert run + rest == run;
    } else {
      assert (run + rest)[..|run + rest| - 1] == run + rest[..|rest| - 1];
      PlainSplits(s, run, rest[..|rest| - 1]);
    }
  }

  /**
   The sealed vault's promise, over every run from an empty vault: restoring a version makes the
   next read return exactly the plaintext that was current when step k took the version.
   */
  lemma RestoreBringsBack(master: Bytes, run: seq<Action>, id: string, v: nat, d: Draw) returns (k: nat)
    requires var t := After(NO_TABLES, master, run); v in t.versions && t.versions[v].itemId == id
    ensures k < |run|
    ensures var t := After(NO_TABLES, master, run);
            var taken := After(NO_TABLES, master, run[..k]);
            var restored := RestoreVersion(t, id, v);
            && id in taken.items && taken.sequence + 1 == v == After(NO_TABLES, master, run[..k + 1]).sequence
            && restored.1 == Ok(())
            && ReadSecret(restored.0, master, id, d).1 == Ok(Now(taken, master, id))
  {
    hide Intact, View;
    var t := After(NO_TABLES, master, run);
    EmptyIsIntact(master);
    RunRefines(NO_TABLES, master, run);
    ViewShowsVersion(t, master, v);
    k := VersionsAreSnapshots(View(NO_TABLES, master), run, v);
    RunRefines(NO_TABLES, master, run[..k]);
    var taken := After(NO_TABLES, master, run[..k]);
    ViewShows(taken, master, id);
    RunRefines(NO_TABLES, master, run[..k + 1]);
    ViewShows(After(NO_TABLES, master, run[..k + 1]), master, id);
    RestoreReads(t, master, id, v, d);
  }

  lemma EmptyIsIntact(master: Bytes)
    ensures Intact(NO_TABLES, master) && View(NO_TABLES, master) == Plain(map[], map[], 0)
  {
  }

  /** Restoring a version of the item makes the next read return what the version holds. */
  lemma RestoreReads(t: Tables, master: Bytes, id: string, v: nat, d: Draw)
    requires Intact(t, master) && v in t.versions && t.versions[v].itemId == id
    ensures v in View(t, master).versions
    ensures RestoreVersion(t, id, v).1 == Ok(())
    ensures ReadSecret(RestoreVersion(t, id, v).0, master, id, d).1 == Ok(View(t, master).versions[v].plain)
  {
    var u := RestoreVersion(t, id, v).0;
    StepRefines(t, master, Restore(id, v));
    ViewShows(u, master, id);
    ReadIsNow(u, master, id, d);
  }

  /** A read returns the current plaintext of an intact vault and does not disturb it. */
  lemma ReadIsNow(t: Tables, master: Bytes, id: string, d: Draw)
    requires Intact(t, master) && id in t.items
    ensures ReadSecret(t, master, id, d).1 == Ok(Now(t, master, id))
  {
    var o := t.items[id].owner;
    assert o in t.keys;
  }

  /** A put that succeeds is what the next read returns, under the owner it named; every other item reads as before. */
  lemma PutIsRead(t: Tables, master: Bytes, id: string, owner: Owner, plain: Bytes, d: Draw, e: Draw, other: string)
    requires Intact(t, master)
    ensures PutItem(t, master, id, owner, plain, d).1.Ok? <==>
            owner.kind != "" && owner.id != "" && (id in t.items ==> t.items[id].owner == owner)
    ensures PutItem(t, master, id, owner, plain, d).1.Ok? ==>
              var u := PutItem(t, master, id, owner, plain, d).0;
              && ReadSecret(u, master, id, e).1 == Ok(plain) && u.items[id].owner == owner
              && (other != id && other in t.items ==>
                    other in u.items && ReadSecret(u, master, other, e).1 == Ok(Now(t, master, other)))
  {
    MoreKeys(t, master, owner, d);
    if PutItem(t, master, id, owner, plain, d).1.Ok? {
      hide Intact, View, PutItem;
      var u := PutItem(t, master, id, owner, plain, d).0;
      StepRefines(t, master, Put(id, owner, plain, d));
      ViewShows(u, master, id);
      ReadIsNow(u, master, id, e);
      ViewShows(t, master, other);
      ViewShows(u, master, other);
      if other != id && other in t.items {
        ReadIsNow(u, master, other, e);
      }
    }
  }

  /** A deleted item reads as not found and has no versions left; other items and their versions are untouched. */
  lemma DeleteIsDelete(t: Tables, master: Bytes, id: string, e: Draw)
    ensures var (u, r) := DeleteItem(t, id);
            && (r == Ok(()) <==> id in t.items)
            && ReadSecret(u, master, id, e).1 == Err(NotFound)
            && (forall v :: v in u.versions <==> v in t.versions && t.versions[v].itemId != id)
            && (forall v :: v in u.versions ==> u.versions[v] == t.versions[v])
            && u.items.Keys == t.items.Keys - {id} && (forall i :: i in u.items ==> u.items[i] == t.items[i])
            && u.keys == t.keys && u.sequence == t.sequence
  {
  }

  /** Putting back the newest version undoes the last overwrite, and the last restore. */
  lemma NewestUndoes(t: Tables, master: Bytes, a: Action, d: Draw)
    requires Intact(t, master)
    requires (a.Put? && PutItem(t, master, a.id, a.owner, a.plain, a.draw).1.Ok?)
             || (a.Restore? && RestoreVersion(t, a.id, a.version).1.Ok?)
    requires a.id in t.items
    ensures var u := Step(t, master, a);
            && u.sequence == t.sequence + 1
            && RestoreVersion(u, a.id, u.sequence).1 == Ok(())
            && ReadSecret(RestoreVersion(u, a.id, u.sequence).0, master, a.id, d).1 == Ok(Now(t, master, a.id))
  {
    hide Intact, View;
    var u := Step(t, master, a);
    var v := t.sequence + 1;
    StepRefines(t, master, a);
    assert v in u.versions && u.versions[v].itemId == a.id;
    StepRefines(u, master, Restore(a.id, v));
    var w := RestoreVersion(u, a.id, v).0;
    ViewShows(t, master, a.id);
    ViewShows(u, master, a.id);
    ViewShows(w, master, a.id);
    ReadIsNow(w, master, a.id, d);
  }

  lemma ViewShows(t: Tables, master: Bytes, id: string)
    ensures id in t.items <==> id in View(t, master).items
    ensures id in t.items ==> View(t, master).items[id].plain == Now(t, master, id)
    ensures View(t, master).sequence == t.sequence
  {
  }

  lemma ViewShowsVersion(t: Tables, master: Bytes, v: nat)
    ensures v in t.versions <==> v in View(t, master).versions
    ensures v in t.versions ==> View(t, master).versions[v].itemId == t.versions[v].itemId
  {
  }

  /**
   Exactly when a restore succeeds. Because the current secret is filed before the version is
   looked up, the number about to be given out is accepted too, and then changes nothing but history.
   */
  lemma RestoreSucceedsIff(t: Tables, master: Bytes, id: string, v: int)
    requires Intact(t, master)
    ensures RestoreVersion(t, id, v).1.Ok? <==>
            (v in t.versions && t.versions[v].itemId == id) || (id in t.items && v == t.sequence + 1)
    ensures id in t.items && v == t.sequence + 1 ==> RestoreVersion(t, id, v).0 == Snapshot(t, id)
    ensures RestoreVersion(t, id, v).1.Err? ==> RestoreVersion(t, id, v).0 == t
  {
    if id in t.items && v == t.sequence + 1 {
      var u := Snapshot(t, id);
      assert u.items[id].(secret := u.versions[v].secret) == u.items[id];
      assert u.items[id := u.items[id]] == u.items;
    }
  }

  /** A put never moves an item to another owner: it is refused, and the item and its history stay. */
  lemma OwnerNeverChanges(t: Tables, master: Bytes, a: Action, id: string)
    requires id in t.items && id in Step(t, master, a).items
    ensures Step(t, master, a).items[id].owner == t.items[id].owner
    ensures a.Put? && a.id == id && a.owner != t.items[id].owner ==>
              PutItem(t, master, id, a.owner, a.plain, a.draw).1.Err? &&
              Step(t, master, a).items == t.items && Step(t, master, a).versions == t.versions
  {
  }

  /** An owner without a kind or an id gets no key, not even one that is in the table, and no item. */
  lemma BadOwnersAreRefused(t: Tables, master: Bytes, id: string, o: Owner, plain: Bytes, d: Draw)
    requires o.kind == "" || o.id == ""
    ensures WithKey(t.keys, master, o, d) == t.keys && OwnerKey(t.keys, master, o, d) == None
    ensures Vault.PutItem(t, master, id, o, plain, d) == (t, Err(BadOwner))
    ensures id in t.items && t.items[id].owner == o ==> ReadSecret(t, master, id, d) == (t, Err(BadOwner))
  {
  }

  /** For a proper owner a read makes the missing data key and nothing else, and says so when the key does not open the blob. */
  lemma ReadMeans(t: Tables, master: Bytes, id: string, d: Draw)
    requires id in t.items && t.items[id].owner.kind != "" && t.items[id].owner.id != ""
    ensures var (u, r) := ReadSecret(t, master, id, d);
            var o, blob := t.items[id].owner, t.items[id].secret;
            && u == t.(keys := if o in t.keys then t.keys else t.keys[o := Sealed(master, d.wrapNonce, d.key)])
            && u.keys[o].Sealed?  == (o !in t.keys || t.keys[o].Sealed?)
            && (if u.keys[o].Sealed? && u.keys[o].key == master && blob.Sealed? && blob.key == u.keys[o].plain
                then r == Ok(blob.plain) else r == Err(AuthFailed))
  {
  }
}
