/**
 The legacy rewrap preserves meaning: what opened before opens to the same plaintext
 under its owner's key after, the completion mark never lies, a wrong master changes
 nothing, and a rerun moves no row.
 */
module Rewrapping {
  import opened Protocol
  import opened Sealing
  import opened Vault

  /** The blob opens to this plaintext under its owner's data key. */
  predicate OpensAs(keys: KeyTable, master: Bytes, o: Owner, blob: Blob, plain: Bytes) {
    DataKey(keys, master, o).Some? && Open(DataKey(keys, master, o).value, blob) == Some(plain)
  }

  predicate OwnerSealed(keys: KeyTable, master: Bytes, o: Owner, blob: Blob) {
    DataKey(keys, master, o).Some? && Open(DataKey(keys, master, o).value, blob).Some?
  }

  /** What a row holds, whichever of the two keys it is sealed under; the master is tried first. */
  function Meaning(keys: KeyTable, master: Bytes, r: Row): Option<Bytes> {
    match Open(master, r.secret)
    case Some(plain) => Some(plain)
    case None =>
      match DataKey(keys, master, r.owner)
      case Some(key) => Open(key, r.secret)
      case None => None
  }

  predicate Grows(keys: KeyTable, more: KeyTable) {
    forall o :: o in keys ==> o in more && more[o] == keys[o]
  }

  /** One row before and after: a master-sealed one keeps its plaintext, any other keeps its very bytes. */
  predicate RowKept(keys: KeyTable, master: Bytes, r: Row, secret: Blob) {
    match Open(master, r.secret)
    case Some(plain) => OpensAs(keys, master, r.owner, secret, plain)
    case None => secret == r.secret
  }

  lemma OneRow(keys: KeyTable, master: Bytes, r: Row, d: Draw)
    ensures var after := KeysAfter(keys, master, r, d);
            && Grows(keys, after)
            && (match TurnOf(keys, master, r, d)
                case Broken => true
                case Same(resolved) =>
                  RowKept(after, master, r, r.secret) && (resolved <==> OwnerSealed(after, master, r.owner, r.secret))
                case Moved(secret) =>
                  RowKept(after, master, r, secret) && OwnerSealed(after, master, r.owner, secret))
  {
  }

  /** What is kept, and what is sealed, stays so while data keys are only added. */
  lemma RowStays(keys: KeyTable, more: KeyTable, master: Bytes, r: Row, secret: Blob)
    requires Grows(keys, more)
    ensures RowKept(keys, master, r, secret) ==> RowKept(more, master, r, secret)
    ensures OwnerSealed(keys, master, r.owner, secret) ==> OwnerSealed(more, master, r.owner, secret)
  {
  }

  /** A pass only adds data keys, keeps every row's meaning, and counts all rows only when all are owner-sealed. */
  lemma {:induction false} PassKeepsRows(keys: KeyTable, master: Bytes, rows: seq<Row>, draws: seq<Draw>)
    requires |rows| == |draws|
    requires RewrapRows(keys, master, rows, draws).ok
    ensures var p := RewrapRows(keys, master, rows, draws);
            && Grows(keys, p.keys)
            && (forall i :: 0 <= i < |rows| ==> RowKept(p.keys, master, rows[i], p.secrets[i]))
            && (p.resolved == |rows| ==>
                  forall i :: 0 <= i < |rows| ==> OwnerSealed(p.keys, master, rows[i].owner, p.secrets[i]))
  {
    hide TurnOf, KeysAfter, RowKept, OwnerSealed;
    if rows != [] {
      var n := |rows| - 1;
      var p := RewrapRows(keys, master, rows[..n], draws[..n]);
      PassKeepsRows(keys, master, rows[..n], draws[..n]);
      OneRow(p.keys, master, rows[n], draws[n]);
      var q := RewrapRows(keys, master, rows, draws);
      forall i: nat | i < n
        ensures RowKept(q.keys, master, rows[i], q.secrets[i])
        ensures p.resolved == n ==> OwnerSealed(q.keys, master, rows[i].owner, q.secrets[i])
      {
        assert rows[..n][i] == rows[i];
        RowStays(p.keys, q.keys, master, rows[i], p.secrets[i]);
      }
    }
  }

  // ---- tables ----

  lemma {:induction false} ItemsSet(items: map<string, ItemRow>, ids: seq<string>, secrets: seq<Blob>)
    requires |secrets| == |ids| && Distinct(ids)
    requires forall i :: i in ids ==> i in items
    ensures forall n :: 0 <= n < |ids| ==> SetItems(items, ids, secrets)[ids[n]].secret == secrets[n]
    ensures forall i :: i in items && i !in ids ==> SetItems(items, ids, secrets)[i] == items[i]
  {
    if ids != [] {
      ItemsSet(items, ids[..|ids| - 1], secrets[..|ids| - 1]);
    }
  }

  lemma {:induction false} VersionsSet(versions: map<nat, VersionRow>, ids: seq<nat>, secrets: seq<Blob>)
    requires |secrets| == |ids| && Distinct(ids)
    requires forall n :: 0 <= n < |ids| ==> ids[n] in versions
    ensures forall n :: 0 <= n < |ids| ==> SetVersions(versions, ids, secrets)[ids[n]].secret == secrets[n]
    ensures forall v :: v in versions && v !in ids ==> SetVersions(versions, ids, secrets)[v] == versions[v]
  {
    if ids != [] {
      VersionsSet(versions, ids[..|ids| - 1], secrets[..|ids| - 1]);
    }
  }

  function ItemRowOf(t: Tables, id: string): Row
    requires id in t.items
  {
    Row(t.items[id].owner, t.items[id].secret)
  }

  /** Every item row, and every version row joined with its item, opens under its owner's key. */
  ghost predicate AllOwnerSealed(t: Tables, master: Bytes) {
    && (forall i :: i in t.items ==> OwnerSealed(t.keys, master, t.items[i].owner, t.items[i].secret))
    && (forall v :: Joined(t, v) ==>
          OwnerSealed(t.keys, master, t.items[t.versions[v].itemId].owner, t.versions[v].secret))
  }

  /** The same rows with the same owners, orphaned versions untouched, no data key lost. */
  predicate SameShape(t: Tables, u: Tables) {
    && u.items.Keys == t.items.Keys && u.versions.Keys == t.versions.Keys && u.sequence == t.sequence
    && (forall i :: i in t.items ==> u.items[i].owner == t.items[i].owner)
    && (forall v :: v in t.versions ==>
          u.versions[v].itemId == t.versions[v].itemId && (Joined(t, v) || u.versions[v] == t.versions[v]))
    && Grows(t.keys, u.keys)
  }

  /** Each row of the first tables means the same in the second. */
  ghost predicate MeaningKept(t: Tables, u: Tables, master: Bytes)
    requires SameShape(t, u)
  {
    && (forall i :: i in t.items ==>
          var m := Meaning(t.keys, master, ItemRowOf(t, i));
          if m.Some? then OpensAs(u.keys, master, t.items[i].owner, u.items[i].secret, m.value)
          else u.items[i] == t.items[i])
    && (forall v :: Joined(t, v) ==>
          var m := Meaning(t.keys, master, JoinedRow(t, v));
          if m.Some? then OpensAs(u.keys, master, t.items[t.versions[v].itemId].owner, u.versions[v].secret, m.value)
          else u.versions[v] == t.versions[v])
  }

  lemma SettledShape(t: Tables, master: Bytes, p: Plan)
    requires Covers(t, p) && !t.marked && Rewrap(t, master, p).Some?
    ensures SameShape(t, Rewrap(t, master, p).value)
  {
    var a := RewrapRows(t.keys, master, ItemRows(t, p.itemIds), p.itemDraws);
    var b := RewrapRows(a.keys, master, VersionRows(t, p.versionIds), p.versionDraws);
    PassKeepsRows(t.keys, master, ItemRows(t, p.itemIds), p.itemDraws);
    PassKeepsRows(a.keys, master, VersionRows(t, p.versionIds), p.versionDraws);
    VersionsSet(t.versions, p.versionIds, b.secrets);
  }

  lemma KeptMeans(keys: KeyTable, between: KeyTable, after: KeyTable, master: Bytes, r: Row, secret: Blob)
    requires Grows(keys, between) && Grows(between, after) && RowKept(between, master, r, secret)
    ensures var m := Meaning(keys, master, r);
            if m.Some? then OpensAs(after, master, r.owner, secret, m.value) else secret == r.secret
    ensures OwnerSealed(between, master, r.owner, secret) ==> OwnerSealed(after, master, r.owner, secret)
  {
  }

  lemma ItemKept(t: Tables, master: Bytes, p: Plan, i: string)
    requires Covers(t, p) && !t.marked && Rewrap(t, master, p).Some? && i in t.items
    ensures var u := Rewrap(t, master, p).value;
            && i in u.items
            && (var m := Meaning(t.keys, master, ItemRowOf(t, i));
                if m.Some? then OpensAs(u.keys, master, t.items[i].owner, u.items[i].secret, m.value)
                else u.items[i] == t.items[i])
            && (u.marked ==> OwnerSealed(u.keys, master, u.items[i].owner, u.items[i].secret))
  {
    var rows := ItemRows(t, p.itemIds);
    var a := RewrapRows(t.keys, master, rows, p.itemDraws);
    var b := RewrapRows(a.keys, master, VersionRows(t, p.versionIds), p.versionDraws);
    PassKeepsRows(t.keys, master, rows, p.itemDraws);
    PassKeepsRows(a.keys, master, VersionRows(t, p.versionIds), p.versionDraws);
    ItemsSet(t.items, p.itemIds, a.secrets);
    var n :| 0 <= n < |p.itemIds| && p.itemIds[n] == i;
    KeptMeans(t.keys, a.keys, b.keys, master, rows[n], a.secrets[n]);
  }

  lemma VersionKept(t: Tables, master: Bytes, p: Plan, v: nat)
    requires Covers(t, p) && !t.marked && Rewrap(t, master, p).Some? && Joined(t, v)
    ensures var u := Rewrap(t, master, p).value;
            && v in u.versions
            && (var o := t.items[t.versions[v].itemId].owner;
                var m := Meaning(t.keys, master, JoinedRow(t, v));
                && (if m.Some? then OpensAs(u.keys, master, o, u.versions[v].secret, m.value)
                    else u.versions[v] == t.versions[v])
                && (u.marked ==> OwnerSealed(u.keys, master, o, u.versions[v].secret)))
  {
    var rows := VersionRows(t, p.versionIds);
    var a := RewrapRows(t.keys, master, ItemRows(t, p.itemIds), p.itemDraws);
    var b := RewrapRows(a.keys, master, rows, p.versionDraws);
    PassKeepsRows(t.keys, master, ItemRows(t, p.itemIds), p.itemDraws);
    PassKeepsRows(a.keys, master, rows, p.versionDraws);
    VersionsSet(t.versions, p.versionIds, b.secrets);
    var n :| 0 <= n < |p.versionIds| && p.versionIds[n] == v;
    assert rows[n] == JoinedRow(t, v);
    // The versions are read against the table the first pass left, whose keys have only grown since.
    LaterMeaning(t.keys, a.keys, master, rows[n]);
    KeptMeans(a.keys, b.keys, b.keys, master, rows[n], b.secrets[n]);
  }

  /** More data keys leave a row's known meaning as it was. */
  lemma LaterMeaning(keys: KeyTable, more: KeyTable, master: Bytes, r: Row)
    requires Grows(keys, more)
    ensures Meaning(keys, master, r).Some? ==> Meaning(more, master, r) == Meaning(keys, master, r)
  {
  }

  /**
   After a commit every item and every joined version that could be opened opens under its
   owner's key to its old plaintext; rows nobody could open are byte for byte what they were;
   and a mark that was set vouches for every row.
   */
  lemma RewrapKeepsMeaning(t: Tables, master: Bytes, p: Plan)
    requires Covers(t, p) && !t.marked && Rewrap(t, master, p).Some?
    ensures var u := Rewrap(t, master, p).value;
            SameShape(t, u) && MeaningKept(t, u, master) && (u.marked ==> AllOwnerSealed(u, master))
  {
    var u := Rewrap(t, master, p).value;
    SettledShape(t, master, p);
    forall i | i in t.items
      ensures var m := Meaning(t.keys, master, ItemRowOf(t, i));
              if m.Some? then OpensAs(u.keys, master, t.items[i].owner, u.items[i].secret, m.value)
              else u.items[i] == t.items[i]
      ensures u.marked ==> OwnerSealed(u.keys, master, u.items[i].owner, u.items[i].secret)
    {
      ItemKept(t, master, p, i);
    }
    forall v | Joined(t, v)
      ensures var m := Meaning(t.keys, master, JoinedRow(t, v));
              if m.Some? then OpensAs(u.keys, master, t.items[t.versions[v].itemId].owner, u.versions[v].secret, m.value)
              else u.versions[v] == t.versions[v]
      ensures u.marked ==> OwnerSealed(u.keys, master, t.items[t.versions[v].itemId].owner, u.versions[v].secret)
    {
      VersionKept(t, master, p, v);
    }
    assert forall v :: Joined(u, v) ==> Joined(t, v);
  }

  // ---- a vault that can be moved whole ----

  /** The owner is one, and its data key, where there is one already, is under this master. */
  predicate Ready(keys: KeyTable, master: Bytes, o: Owner) {
    ValidOwner(o) && (o in keys ==> Open(master, keys[o]).Some?)
  }

  lemma {:induction false} PassMovesAll(keys: KeyTable, master: Bytes, rows: seq<Row>, draws: seq<Draw>)
    requires |rows| == |draws|
    requires forall i :: 0 <= i < |rows| ==> Ready(keys, master, rows[i].owner) && Meaning(keys, master, rows[i]).Some?
    ensures var p := RewrapRows(keys, master, rows, draws);
            && p.ok && p.resolved == |rows| && Grows(keys, p.keys)
            && forall o :: Ready(keys, master, o) ==> Ready(p.keys, master, o)
  {
    hide Meaning;
    if rows != [] {
      var n := |rows| - 1;
      assert forall i :: 0 <= i < n ==> rows[..n][i] == rows[i];
      PassMovesAll(keys, master, rows[..n], draws[..n]);
      var p := RewrapRows(keys, master, rows[..n], draws[..n]);
      LaterMeaning(keys, p.keys, master, rows[n]);
      RowMoves(p.keys, master, rows[n], draws[n]);
    }
  }

  lemma RowMoves(keys: KeyTable, master: Bytes, r: Row, d: Draw)
    requires Ready(keys, master, r.owner) && Meaning(keys, master, r).Some?
    ensures TurnOf(keys, master, r, d).Moved? || TurnOf(keys, master, r, d) == Same(true)
    ensures Grows(keys, KeysAfter(keys, master, r, d))
    ensures forall o :: Ready(keys, master, o) ==> Ready(KeysAfter(keys, master, r, d), master, o)
  {
  }

  /** Every row of the vault opens, under the master or its owner's key. */
  ghost predicate AllOpen(t: Tables, master: Bytes) {
    && (forall i :: i in t.items ==>
          Ready(t.keys, master, t.items[i].owner) && Meaning(t.keys, master, ItemRowOf(t, i)).Some?)
    && (forall v :: Joined(t, v) ==> Meaning(t.keys, master, JoinedRow(t, v)).Some?)
  }

  /** A vault all of whose rows open is moved at the first run, whatever the order, and marked unless it is empty. */
  lemma OpenVaultIsMoved(t: Tables, master: Bytes, p: Plan)
    requires Covers(t, p) && !t.marked && AllOpen(t, master)
    ensures Rewrap(t, master, p).Some?
    ensures Rewrap(t, master, p).value.marked <==> t.items != map[]
  {
    hide Meaning, RewrapRows, SetItems, SetVersions, Ready;
    var rows, vrows := ItemRows(t, p.itemIds), VersionRows(t, p.versionIds);
    forall n: nat | n < |rows|
      ensures Ready(t.keys, master, rows[n].owner) && Meaning(t.keys, master, rows[n]).Some?
    {
      assert p.itemIds[n] in p.itemIds;
      assert rows[n] == ItemRowOf(t, p.itemIds[n]);
    }
    PassMovesAll(t.keys, master, rows, p.itemDraws);
    var a := RewrapRows(t.keys, master, rows, p.itemDraws);
    forall n: nat | n < |vrows|
      ensures Ready(a.keys, master, vrows[n].owner) && Meaning(a.keys, master, vrows[n]).Some?
    {
      var v := p.versionIds[n];
      assert Joined(t, v) && vrows[n] == JoinedRow(t, v);
      LaterMeaning(t.keys, a.keys, master, vrows[n]);
    }
    PassMovesAll(a.keys, master, vrows, p.versionDraws);
    PlanSpansVault(t, p);
  }

  lemma PlanSpansVault(t: Tables, p: Plan)
    requires Covers(t, p)
    ensures t.items == map[] <==> |p.itemIds| == 0
    ensures |p.itemIds| == 0 ==> |p.versionIds| == 0
  {
    assert |p.itemIds| > 0 ==> p.itemIds[0] in t.items;
    assert |p.versionIds| > 0 ==> Joined(t, p.versionIds[0]);
    if t.items != map[] {
      var i :| i in t.items;
      assert i in p.itemIds;
    }
  }

  // ---- a wrong master ----

  /** The master opens no row and no wrapped key. */
  predicate OpensNothing(t: Tables, master: Bytes) {
    && (forall i :: i in t.items ==> Open(master, t.items[i].secret).None?)
    && (forall v :: v in t.versions ==> Open(master, t.versions[v].secret).None?)
    && (forall o :: o in t.keys ==> Open(master, t.keys[o]).None?)
  }

  lemma {:induction false} IdlePass(keys: KeyTable, master: Bytes, rows: seq<Row>, draws: seq<Draw>)
    requires |rows| == |draws|
    requires forall i :: 0 <= i < |rows| ==> Open(master, rows[i].secret).None?
    ensures var p := RewrapRows(keys, master, rows, draws);
            && p.keys == keys
            && (p.ok ==> |p.secrets| == |rows| && forall i :: 0 <= i < |rows| ==> p.secrets[i] == rows[i].secret)
            && ((forall o :: o in keys ==> Open(master, keys[o]).None?) ==> p.ok && p.resolved == 0)
  {
    if rows != [] {
      IdlePass(keys, master, rows[..|rows| - 1], draws[..|rows| - 1]);
    }
  }

  lemma {:induction false} SetBackItems(items: map<string, ItemRow>, ids: seq<string>, secrets: seq<Blob>)
    requires |secrets| == |ids|
    requires forall i :: i in ids ==> i in items
    requires forall n :: 0 <= n < |ids| ==> secrets[n] == items[ids[n]].secret
    ensures SetItems(items, ids, secrets) == items
  {
    if ids != [] {
      SetBackItems(items, ids[..|ids| - 1], secrets[..|ids| - 1]);
    }
  }

  lemma {:induction false} SetBackVersions(versions: map<nat, VersionRow>, ids: seq<nat>, secrets: seq<Blob>)
    requires |secrets| == |ids|
    requires forall n :: 0 <= n < |ids| ==> ids[n] in versions
    requires forall n :: 0 <= n < |ids| ==> secrets[n] == versions[ids[n]].secret
    ensures SetVersions(versions, ids, secrets) == versions
  {
    if ids != [] {
      SetBackVersions(versions, ids[..|ids| - 1], secrets[..|ids| - 1]);
    }
  }

  /** Where no row is sealed under the master, a pass that goes through leaves every row and key alone. */
  lemma NothingToMove(t: Tables, master: Bytes, p: Plan)
    requires Covers(t, p)
    requires forall i :: i in t.items ==> Open(master, t.items[i].secret).None?
    requires forall v :: Joined(t, v) ==> Open(master, t.versions[v].secret).None?
    ensures Rewrap(t, master, p).Some? ==> Rewrap(t, master, p).value == t.(marked := Rewrap(t, master, p).value.marked)
  {
    if !t.marked {
      var rows := ItemRows(t, p.itemIds);
      var a := RewrapRows(t.keys, master, rows, p.itemDraws);
      IdlePass(t.keys, master, rows, p.itemDraws);
      if a.ok {
        SetBackItems(t.items, p.itemIds, a.secrets);
        var vrows := VersionRows(t, p.versionIds);
        IdlePass(a.keys, master, vrows, p.versionDraws);
        var b := RewrapRows(a.keys, master, vrows, p.versionDraws);
        if b.ok {
          SetBackVersions(t.versions, p.versionIds, b.secrets);
        }
      }
    }
  }

  /** Opening with a wrong master succeeds, alters no row, makes no key and sets no mark. */
  lemma WrongMasterChangesNothing(t: Tables, master: Bytes, p: Plan)
    requires Covers(t, p) && OpensNothing(t, master)
    ensures Rewrap(t, master, p) == Some(t)
  {
    if !t.marked {
      var rows, vrows := ItemRows(t, p.itemIds), VersionRows(t, p.versionIds);
      IdlePass(t.keys, master, rows, p.itemDraws);
      IdlePass(t.keys, master, vrows, p.versionDraws);
      NothingToMove(t, master, p);
    }
  }

  // ---- reruns ----

  /** Data keys are drawn at random: none of them is the master key itself. */
  ghost predicate MasterIsNoDataKey(keys: KeyTable, master: Bytes) {
    forall o :: DataKey(keys, master, o) != Some(master)
  }

  /**
   Run again after a commit, with any row order and any randomness: the transaction rolls
   back or leaves every row and key as it is, and a vault marked complete is not even read.
   */
  lemma RerunChangesNothing(t: Tables, master: Bytes, p: Plan, q: Plan)
    requires Covers(t, p) && !t.marked && Rewrap(t, master, p).Some?
    requires MasterIsNoDataKey(Rewrap(t, master, p).value.keys, master)
    requires Covers(Rewrap(t, master, p).value, q)
    ensures var u := Rewrap(t, master, p).value;
            var again := Rewrap(u, master, q);
            && (again.Some? ==> again.value == u.(marked := again.value.marked))
            && (u.marked ==> again == Some(u))
  {
    hide Rewrap, SameShape, MeaningKept;
    RewrapKeepsMeaning(t, master, p);
    NoneLeft(t, Rewrap(t, master, p).value, master);
    NothingToMove(Rewrap(t, master, p).value, master, q);
    if Rewrap(t, master, p).value.marked {
      MarkedIsSkipped(Rewrap(t, master, p).value, master, q);
    }
  }

  lemma MarkedIsSkipped(t: Tables, master: Bytes, q: Plan)
    requires Covers(t, q) && t.marked
    ensures Rewrap(t, master, q) == Some(t)
  {
  }

  /** After a rewrap no row is sealed under the master any more. */
  lemma NoneLeft(t: Tables, u: Tables, master: Bytes)
    requires SameShape(t, u) && MeaningKept(t, u, master) && MasterIsNoDataKey(u.keys, master)
    ensures forall i :: i in u.items ==> Open(master, u.items[i].secret).None?
    ensures forall v :: Joined(u, v) ==> Open(master, u.versions[v].secret).None?
  {
    forall i | i in u.items
      ensures Open(master, u.items[i].secret).None?
    {
      var m := Meaning(t.keys, master, ItemRowOf(t, i));
      assert DataKey(u.keys, master, t.items[i].owner) != Some(master);
    }
    forall v | Joined(u, v)
      ensures Open(master, u.versions[v].secret).None?
    {
      assert Joined(t, v);
      var m := Meaning(t.keys, master, JoinedRow(t, v));
      assert DataKey(u.keys, master, t.items[t.versions[v].itemId].owner) != Some(master);
    }
  }

  /** A row in the way: its owner has a data key the master opens, and the key does not open the row. */
  predicate InTheWay(keys: KeyTable, master: Bytes, o: Owner, blob: Blob) {
    DataKey(keys, master, o).Some? && !OwnerSealed(keys, master, o, blob)
  }

  lemma {:induction false} IdlePassOkIff(keys: KeyTable, master: Bytes, rows: seq<Row>, draws: seq<Draw>)
    requires |rows| == |draws|
    requires forall i :: 0 <= i < |rows| ==> Open(master, rows[i].secret).None?
    ensures RewrapRows(keys, master, rows, draws).ok <==>
            forall i :: 0 <= i < |rows| ==> !InTheWay(keys, master, rows[i].owner, rows[i].secret)
  {
    if rows != [] {
      var n := |rows| - 1;
      IdlePassOkIff(keys, master, rows[..n], draws[..n]);
      IdlePass(keys, master, rows[..n], draws[..n]);
      assert forall i :: 0 <= i < n ==> rows[..n][i] == rows[i];
    }
  }

  /** No item, and no version joined with one, is in the way. */
  ghost predicate ClearWay(t: Tables, master: Bytes) {
    && (forall i :: i in t.items ==> !InTheWay(t.keys, master, t.items[i].owner, t.items[i].secret))
    && (forall v :: Joined(t, v) ==>
          !InTheWay(t.keys, master, t.items[t.versions[v].itemId].owner, t.versions[v].secret))
  }

  /** Exactly when a run with nothing left to move goes through: when no row is in the way. */
  lemma IdleRewrapSucceedsIff(t: Tables, master: Bytes, q: Plan)
    requires Covers(t, q) && !t.marked
    requires forall i :: i in t.items ==> Open(master, t.items[i].secret).None?
    requires forall v :: Joined(t, v) ==> Open(master, t.versions[v].secret).None?
    ensures Rewrap(t, master, q).Some? <==> ClearWay(t, master)
  {
    hide RewrapRows, InTheWay, SetItems, SetVersions;
    var rows, vrows := ItemRows(t, q.itemIds), VersionRows(t, q.versionIds);
    IdlePass(t.keys, master, rows, q.itemDraws);
    IdlePassOkIff(t.keys, master, rows, q.itemDraws);
    IdlePassOkIff(t.keys, master, vrows, q.versionDraws);
    ItemsAreRows(t, master, q);
    VersionsAreRows(t, master, q);
  }

  lemma ItemsAreRows(t: Tables, master: Bytes, q: Plan)
    requires Covers(t, q)
    ensures (forall i :: i in t.items ==> !InTheWay(t.keys, master, t.items[i].owner, t.items[i].secret)) <==>
            var rows := ItemRows(t, q.itemIds);
            forall n :: 0 <= n < |rows| ==> !InTheWay(t.keys, master, rows[n].owner, rows[n].secret)
  {
    hide InTheWay;
    var rows := ItemRows(t, q.itemIds);
    forall i | i in t.items
      ensures exists n :: 0 <= n < |rows| && rows[n] == ItemRowOf(t, i)
    {
      assert i in q.itemIds;
      var n :| 0 <= n < |q.itemIds| && q.itemIds[n] == i;
      assert rows[n] == ItemRowOf(t, i);
    }
  }

  lemma VersionsAreRows(t: Tables, master: Bytes, q: Plan)
    requires Covers(t, q)
    ensures (forall v :: Joined(t, v) ==>
               !InTheWay(t.keys, master, t.items[t.versions[v].itemId].owner, t.versions[v].secret)) <==>
            var rows := VersionRows(t, q.versionIds);
            forall n :: 0 <= n < |rows| ==> !InTheWay(t.keys, master, rows[n].owner, rows[n].secret)
  {
    hide InTheWay;
    var rows := VersionRows(t, q.versionIds);
    forall v | Joined(t, v)
      ensures exists n :: 0 <= n < |rows| && rows[n] == JoinedRow(t, v)
    {
      assert v in q.versionIds;
      var n :| 0 <= n < |q.versionIds| && q.versionIds[n] == v;
      assert rows[n] == JoinedRow(t, v);
    }
  }

  /**
   When the opening after a successful one goes through, in any row order: exactly when the vault was marked
   complete, or no row it left is in the way of its owner's key.
   */
  lemma RerunSucceedsIff(t: Tables, master: Bytes, p: Plan, q: Plan)
    requires Covers(t, p) && !t.marked && Rewrap(t, master, p).Some?
    requires MasterIsNoDataKey(Rewrap(t, master, p).value.keys, master)
    requires Covers(Rewrap(t, master, p).value, q)
    ensures var u := Rewrap(t, master, p).value;
            Rewrap(u, master, q).Some? <==> u.marked || ClearWay(u, master)
  {
    hide Rewrap, SameShape, MeaningKept, ClearWay, Covers;
    RewrapKeepsMeaning(t, master, p);
    var u := Rewrap(t, master, p).value;
    NoneLeft(t, u, master);
    if u.marked {
      MarkedIsSkipped(u, master, q);
    } else {
      IdleRewrapSucceedsIff(u, master, q);
    }
  }

  /**
   A rollback on the second opening is real. An unreadable row met before its owner has a data
   key is skipped; a later row of that owner makes the key; the next opening then refuses the
   row. Met the other way round, the first opening already refuses it.
   */
  lemma SecondOpenCanFail(master: Bytes, o: Owner, d: Draw)
    requires ValidOwner(o) && d.key != master
    ensures var junk, legacy := Row(o, Garbage("")), Row(o, Seal(master, 0, "pw"));
            var first := RewrapRows(map[], master, [junk, legacy], [d, d]);
            && first.ok && first.resolved == 1
            && !RewrapRows(first.keys, master, [Row(o, first.secrets[0]), Row(o, first.secrets[1])], [d, d]).ok
            && !RewrapRows(map[], master, [legacy, junk], [d, d]).ok
  {
    var junk, legacy := Row(o, Garbage("")), Row(o, Seal(master, 0, "pw"));
    var keys: KeyTable := map[o := Seal(master, d.wrapNonce, d.key)];
    var moved := Seal(d.key, d.sealNonce, "pw");
    assert [junk, legacy][..1] == [junk] && [d, d][..1] == [d] && [junk][..0] == [] && [d][..0] == [];
    assert RewrapRows(map[], master, [junk], [d]) == Pass(true, map[], [junk.secret], 0);
    assert RewrapRows(map[], master, [junk, legacy], [d, d]) == Pass(true, keys, [junk.secret, moved], 1);
    var again := [Row(o, junk.secret), Row(o, moved)];
    assert again[..1] == [junk];
    assert !RewrapRows(keys, master, [junk], [d]).ok;
    assert [legacy, junk][..1] == [legacy] && [legacy][..0] == [];
    assert RewrapRows(map[], master, [legacy], [d]).keys == keys;
  }
}
