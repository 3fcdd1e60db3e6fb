/**
 The fill host's local cache: rows in memory, and the same rows sealed in one
 file that is replaced as a whole. A write may fail, and the process may stop,
 at any of its steps.
 */
module Replica {
  import opened Protocol

  /** A piece of text: a character, or a byte that is no part of any. */
  datatype Unit = Rune(c: char) | Stray(b: nat)

  type Text = seq<Unit>

  predicate IsText(t: Text) {
    forall u :: u in t ==> u.Rune?
  }

  function CoerceUnit(u: Unit): Unit {
    if u.Rune? then u else Rune('\U{FFFD}')
  }

  /** What encoding as JSON and back makes of text: stray bytes become the replacement character. */
  function Coerce(t: Text): (r: Text)
    ensures IsText(r) && |r| == |t|
  {
    seq(|t|, i requires 0 <= i < |t| => CoerceUnit(t[i]))
  }

  function CoerceAll(ts: seq<Text>): (r: seq<Text>)
    ensures |r| == |ts|
  {
    seq(|ts|, i requires 0 <= i < |ts| => Coerce(ts[i]))
  }

  datatype Flags = Flags(archived: bool, hasTotp: bool, hasFile: bool)

  datatype Labels = Labels(name: Text, kind: Text, login: Text, uris: seq<Text>, tags: seq<Text>)

  /** An item as the cache keeps it; every text field of it goes through JSON. */
  datatype CachedItem =
    CachedItem(id: Text, orgId: Text, ownerKind: Text, ownerId: Text, labels: Labels, flags: Flags)

  function CoerceLabels(l: Labels): Labels {
    Labels(Coerce(l.name), Coerce(l.kind), Coerce(l.login), CoerceAll(l.uris), CoerceAll(l.tags))
  }

  function CoerceItem(item: CachedItem): CachedItem {
    CachedItem(Coerce(item.id), Coerce(item.orgId), Coerce(item.ownerKind), Coerce(item.ownerId),
               CoerceLabels(item.labels), item.flags)
  }

  predicate AllText(ts: seq<Text>) {
    forall i :: 0 <= i < |ts| ==> IsText(ts[i])
  }

  /** Everything in the row that JSON carries as text is text. */
  predicate RowIsText(row: Row) {
    var item, l := row.item, row.item.labels;
    && IsText(row.material)
    && IsText(item.id) && IsText(item.orgId) && IsText(item.ownerKind) && IsText(item.ownerId)
    && IsText(l.name) && IsText(l.kind) && IsText(l.login) && AllText(l.uris) && AllText(l.tags)
  }

  datatype Row = Row(item: CachedItem, material: Text)

  type Key = seq<nat>

  const KEY_SIZE := 32
  const VERSION := 1

  datatype Box =
    | Sealed(key: Key, nonce: nat, ours: bool, version: int, rows: seq<Row>)
    | Garbage(raw: seq<nat>)

  datatype File = Missing | Unreadable | Content(box: Box)

  /** The two files a vault writes: the box, and the temporary one beside it. */
  datatype Disk = Disk(box: File, tmp: File)

  datatype Error = BadKey | Io | AuthFailed | BadBox

  function OnDisk(row: Row): Row {
    Row(CoerceItem(row.item), Coerce(row.material))
  }

  function AllOnDisk(rows: seq<Row>): (r: seq<Row>)
    ensures |r| == |rows|
  {
    seq(|rows|, i requires 0 <= i < |rows| => OnDisk(rows[i]))
  }

  function ReadBox(file: File, key: Key): Result<seq<Row>, Error> {
    match file
    case Missing => Ok([])
    case Unreadable => Err(Io)
    case Content(Garbage(_)) => Err(AuthFailed)
    case Content(Sealed(k, _, ours, version, rows)) =>
      if k != key || !ours then Err(AuthFailed)
      else if version != VERSION then Err(BadBox)
      else Ok(AllOnDisk(rows))
  }

  /** Which files open, and to what: none at all, and a box sealed under this very key, marked as ours, of version one. */
  lemma ReadBoxIff(file: File, key: Key)
    ensures ReadBox(file, key).Ok? <==>
            file.Missing? ||
            (file.Content? && file.box.Sealed? && file.box.key == key && file.box.ours && file.box.version == 1)
    ensures file.Missing? ==> ReadBox(file, key) == Ok([])
    ensures ReadBox(file, key).Ok? && file.Content? ==> ReadBox(file, key) == Ok(AllOnDisk(file.box.rows))
    ensures file.Unreadable? ==> ReadBox(file, key) == Err(Io)
    ensures file.Content? && (file.box.Garbage? || file.box.key != key || !file.box.ours) ==>
              ReadBox(file, key) == Err(AuthFailed)
  {
  }

  lemma OnDiskTwice(rows: seq<Row>)
    ensures AllOnDisk(AllOnDisk(rows)) == AllOnDisk(rows)
  {
    hide Coerce, IsText;
    forall i: nat | i < |rows|
      ensures OnDisk(OnDisk(rows[i])) == OnDisk(rows[i])
    {
      CoercedIsText(rows[i]);
      RowOnDiskIsSameIff(OnDisk(rows[i]));
    }
  }

  // ---- the rows as a map that remembers the order of insertion ----

  /** The first row of that id gives way to the new one; without one the new row goes last. */
  function PutRow(rows: seq<Row>, row: Row): seq<Row> {
    if rows == [] then [row]
    else if rows[0].item.id == row.item.id then [row] + rows[1..]
    else [rows[0]] + PutRow(rows[1..], row)
  }

  function Find(rows: seq<Row>, id: Text): Text {
    if rows == [] then []
    else if rows[0].item.id == id then rows[0].material
    else Find(rows[1..], id)
  }

  predicate HasId(rows: seq<Row>, id: Text) {
    exists i :: 0 <= i < |rows| && rows[i].item.id == id
  }

  ghost predicate UniqueIds(rows: seq<Row>) {
    forall i, j :: 0 <= i < j < |rows| ==> rows[i].item.id != rows[j].item.id
  }

  function Ids(rows: seq<Row>): (ids: seq<Text>)
    ensures |ids| == |rows| && forall i :: 0 <= i < |ids| ==> ids[i] == rows[i].item.id
  {
    seq(|rows|, i requires 0 <= i < |rows| => rows[i].item.id)
  }

  lemma HasIdSplits(rows: seq<Row>, id: Text)
    requires rows != []
    ensures HasId(rows, id) <==> rows[0].item.id == id || HasId(rows[1..], id)
  {
    var rest := rows[1..];
    assert forall i :: 0 <= i < |rest| ==> rest[i] == rows[i + 1];
    if i: nat :| i < |rest| && rest[i].item.id == id {
      assert rows[i + 1].item.id == id;
    }
  }

  lemma {:induction false} PutRowFinds(rows: seq<Row>, row: Row, id: Text)
    ensures Find(PutRow(rows, row), id) == if id == row.item.id then row.material else Find(rows, id)
  {
    if rows == [] {
    } else if rows[0].item.id == row.item.id {
      assert ([row] + rows[1..])[1..] == rows[1..];
    } else {
      PutRowFinds(rows[1..], row, id);
      assert PutRow(rows, row)[1..] == PutRow(rows[1..], row);
    }
  }

  lemma {:induction false} PutRowIds(rows: seq<Row>, row: Row)
    ensures Ids(PutRow(rows, row)) == Ids(rows) + (if HasId(rows, row.item.id) then [] else [row.item.id])
  {
    if rows != [] {
      HasIdSplits(rows, row.item.id);
      if rows[0].item.id != row.item.id {
        PutRowIds(rows[1..], row);
        assert Ids(rows) == [rows[0].item.id] + Ids(rows[1..]);
        assert Ids(PutRow(rows, row)) == [rows[0].item.id] + Ids(PutRow(rows[1..], row));
      }
    }
  }

  /** The rows after a series of puts that went through. */
  function Kept(base: seq<Row>, log: seq<Row>): seq<Row> {
    if log == [] then base else PutRow(Kept(base, log[..|log| - 1]), log[|log| - 1])
  }

  lemma KeptGrows(base: seq<Row>, log: seq<Row>, row: Row)
    ensures Kept(base, log + [row]) == PutRow(Kept(base, log), row)
  {
    assert (log + [row])[..|log|] == log;
  }

  /** The material last put under an id, looking back through the log. */
  function LastPut(base: seq<Row>, log: seq<Row>, id: Text): Text {
    if log == [] then Find(base, id)
    else if log[|log| - 1].item.id == id then log[|log| - 1].material
    else LastPut(base, log[..|log| - 1], id)
  }

  /** The ids in the order in which they were first put. */
  function FirstPut(base: seq<Text>, log: seq<Row>): seq<Text> {
    if log == [] then base
    else
      var before := FirstPut(base, log[..|log| - 1]);
      var id := log[|log| - 1].item.id;
      if id in before then before else before + [id]
  }

  /** The vault is a map from id to the material last put, in order of first insertion, each id once. */
  lemma {:induction false} VaultIsOrderedMap(base: seq<Row>, log: seq<Row>)
    ensures Ids(Kept(base, log)) == FirstPut(Ids(base), log)
    ensures forall id :: Find(Kept(base, log), id) == LastPut(base, log, id)
    ensures UniqueIds(base) ==> UniqueIds(Kept(base, log))
  {
    if log != [] {
      var front := log[..|log| - 1];
      var row := log[|log| - 1];
      VaultIsOrderedMap(base, front);
      var before := Kept(base, front);
      PutRowIds(before, row);
      forall id
        ensures Find(Kept(base, log), id) == LastPut(base, log, id)
      {
        PutRowFinds(before, row, id);
      }
      HasIdIsIn(before, row.item.id);
      if UniqueIds(base) {
        StaysUnique(before, PutRow(before, row), row.item.id);
      }
    }
  }

  lemma HasIdIsIn(rows: seq<Row>, id: Text)
    ensures HasId(rows, id) <==> id in Ids(rows)
  {
    if HasId(rows, id) {
      var i: nat :| i < |rows| && rows[i].item.id == id;
      assert Ids(rows)[i] == id;
    }
  }

  lemma StaysUnique(before: seq<Row>, later: seq<Row>, id: Text)
    requires UniqueIds(before) && Ids(later) == Ids(before) + (if HasId(before, id) then [] else [id])
    ensures UniqueIds(later)
  {
    forall i: nat, j: nat | i < j < |later|
      ensures later[i].item.id != later[j].item.id
    {
      assert Ids(later)[i] == Ids(before)[i] == before[i].item.id;
      if j < |before| {
        assert Ids(later)[j] == Ids(before)[j] == before[j].item.id;
      }
    }
  }

  // ---- memory against disk ----

  lemma CoerceIsSameIff(t: Text)
    ensures Coerce(t) == t <==> IsText(t)
  {
    if Coerce(t) == t {
      assert IsText(Coerce(t));
    } else {
      var i: nat :| i < |t| && Coerce(t)[i] != t[i];
      assert t[i] in t && !t[i].Rune?;
    }
  }

  lemma CoerceAllIsSameIff(ts: seq<Text>)
    ensures CoerceAll(ts) == ts <==> AllText(ts)
  {
    hide Coerce, IsText;
    forall i: nat | i < |ts|
      ensures CoerceAll(ts)[i] == ts[i] <==> IsText(ts[i])
    {
      CoerceIsSameIff(ts[i]);
    }
    if CoerceAll(ts) == ts {
      forall i: nat | i < |ts|
        ensures IsText(ts[i])
      {
        assert CoerceAll(ts)[i] == ts[i];
      }
    }
  }

  lemma RowOnDiskIsSameIff(row: Row)
    ensures OnDisk(row) == row <==> RowIsText(row)
  {
    hide Coerce, IsText, CoerceAll, AllText;
    var item, l := row.item, row.item.labels;
    CoerceIsSameIff(row.material);
    CoerceIsSameIff(item.id);
    CoerceIsSameIff(item.orgId);
    CoerceIsSameIff(item.ownerKind);
    CoerceIsSameIff(item.ownerId);
    CoerceIsSameIff(l.name);
    CoerceIsSameIff(l.kind);
    CoerceIsSameIff(l.login);
    CoerceAllIsSameIff(l.uris);
    CoerceAllIsSameIff(l.tags);
  }

  lemma CoercedIsText(row: Row)
    ensures RowIsText(OnDisk(row))
  {
    hide IsText;
  }

  /** Rows come back as they were put exactly when every text in them, of item and material alike, was text. */
  lemma OnDiskIsSameIff(rows: seq<Row>)
    ensures AllOnDisk(rows) == rows <==> forall i :: 0 <= i < |rows| ==> RowIsText(rows[i])
  {
    hide OnDisk, RowIsText;
    forall i: nat | i < |rows|
      ensures AllOnDisk(rows)[i] == rows[i] <==> RowIsText(rows[i])
    {
      RowOnDiskIsSameIff(rows[i]);
    }
    if AllOnDisk(rows) == rows {
      forall i: nat | i < |rows|
        ensures RowIsText(rows[i])
      {
        assert AllOnDisk(rows)[i] == rows[i];
      }
    }
  }

  /** Ids that differ still differ after JSON; ids that are text always do. */
  ghost predicate Apart(ids: seq<Text>) {
    forall i, j :: 0 <= i < |ids| && 0 <= j < |ids| && Coerce(ids[i]) == Coerce(ids[j]) ==> ids[i] == ids[j]
  }

  lemma TextIsApart(ids: seq<Text>)
    requires AllText(ids)
    ensures Apart(ids)
  {
    hide Coerce, IsText;
    forall i: nat | i < |ids|
      ensures Coerce(ids[i]) == ids[i]
    {
      CoerceIsSameIff(ids[i]);
    }
  }

  predicate NoMix(rows: seq<Row>, id: Text) {
    forall i :: 0 <= i < |rows| ==> (Coerce(rows[i].item.id) == Coerce(id) ==> rows[i].item.id == id)
  }

  lemma {:induction false} PutOnDisk(rows: seq<Row>, row: Row)
    requires NoMix(rows, row.item.id)
    ensures AllOnDisk(PutRow(rows, row)) == PutRow(AllOnDisk(rows), OnDisk(row))
  {
    hide Coerce, CoerceLabels;
    if rows == [] {
    } else if rows[0].item.id == row.item.id {
      assert AllOnDisk([row] + rows[1..]) == [OnDisk(row)] + AllOnDisk(rows[1..]);
      assert AllOnDisk(rows)[1..] == AllOnDisk(rows[1..]);
    } else {
      PutOnDisk(rows[1..], row);
      assert AllOnDisk(rows)[1..] == AllOnDisk(rows[1..]);
      assert AllOnDisk([rows[0]] + PutRow(rows[1..], row)) == [OnDisk(rows[0])] + AllOnDisk(PutRow(rows[1..], row));
    }
  }

  lemma {:induction false} FirstPutIsPut(base: seq<Text>, log: seq<Row>)
    ensures forall id :: id in FirstPut(base, log) <==> id in base || id in Ids(log)
  {
    if log != [] {
      FirstPutIsPut(base, log[..|log| - 1]);
      assert Ids(log) == Ids(log[..|log| - 1]) + [log[|log| - 1].item.id];
    }
  }

  lemma KeptDoNotMix(base: seq<Row>, log: seq<Row>, row: Row)
    requires Apart(Ids(base) + Ids(log + [row]))
    ensures NoMix(Kept(base, log), row.item.id)
  {
    hide Coerce, Kept, FirstPut;
    VaultIsOrderedMap(base, log);
    FirstPutIsPut(Ids(base), log);
    var all := Ids(base) + Ids(log + [row]);
    assert all[|all| - 1] == row.item.id;
    forall i: nat | i < |Kept(base, log)|
      ensures Coerce(Kept(base, log)[i].item.id) == Coerce(row.item.id) ==> Kept(base, log)[i].item.id == row.item.id
    {
      var id := Kept(base, log)[i].item.id;
      assert Ids(Kept(base, log))[i] == id;
      assert Ids(log + [row]) == Ids(log) + [row.item.id];
      assert id in all;
    }
  }

  /** As long as ids stay apart, what opening reads is the same ordered map, of the rows as JSON keeps them. */
  lemma {:induction false} DiskIsOrderedMap(base: seq<Row>, log: seq<Row>)
    requires Apart(Ids(base) + Ids(log))
    ensures AllOnDisk(Kept(base, log)) == Kept(AllOnDisk(base), AllOnDisk(log))
  {
    hide Coerce, OnDisk;
    if log != [] {
      var front := log[..|log| - 1];
      var row := log[|log| - 1];
      assert log == front + [row];
      assert Ids(log) == Ids(front) + [row.item.id];
      assert Ids(base) + Ids(log) == Ids(base) + Ids(front) + [row.item.id];
      ApartPrefix(Ids(base) + Ids(front), row.item.id);
      DiskIsOrderedMap(base, front);
      KeptDoNotMix(base, front, row);
      PutOnDisk(Kept(base, front), row);
      assert AllOnDisk(log)[..|log| - 1] == AllOnDisk(front);
    }
  }

  lemma ApartPrefix(ids: seq<Text>, last: Text)
    requires Apart(ids + [last])
    ensures Apart(ids)
  {
    hide Coerce;
    var all := ids + [last];
    assert forall i :: 0 <= i < |ids| ==> all[i] == ids[i];
  }

  /**
   And only then: in a vault begun empty, opening gives the ordered map of the rows as JSON keeps them, each id
   once, exactly when no two different ids that were put become one.
   */
  lemma DiskIsOrderedMapIff(log: seq<Row>)
    ensures AllOnDisk(Kept([], log)) == Kept([], AllOnDisk(log)) <==> Apart(Ids(log))
    ensures UniqueIds(AllOnDisk(Kept([], log))) <==> Apart(Ids(log))
  {
    hide Coerce, OnDisk, Kept, FirstPut;
    if Apart(Ids(log)) {
      assert Ids([]) + Ids(log) == Ids(log);
      DiskIsOrderedMap([], log);
    }
    assert AllOnDisk([]) == [];
    VaultIsOrderedMap([], AllOnDisk(log));
    if UniqueIds(AllOnDisk(Kept([], log))) {
      UniqueOnDiskIsApart(log);
    }
  }

  lemma UniqueOnDiskIsApart(log: seq<Row>)
    requires UniqueIds(AllOnDisk(Kept([], log)))
    ensures Apart(Ids(log))
  {
    hide Coerce, Kept, FirstPut;
    var rows := Kept([], log);
    VaultIsOrderedMap([], log);
    FirstPutIsPut(Ids([]), log);
    forall i: nat, j: nat | i < |log| && j < |log| && Coerce(Ids(log)[i]) == Coerce(Ids(log)[j])
      ensures Ids(log)[i] == Ids(log)[j]
    {
      assert Ids(log)[i] in Ids(rows) && Ids(log)[j] in Ids(rows);
      var m: nat :| m < |rows| && Ids(rows)[m] == Ids(log)[i];
      var n: nat :| n < |rows| && Ids(rows)[n] == Ids(log)[j];
      assert AllOnDisk(rows)[m].item.id == AllOnDisk(rows)[n].item.id;
    }
  }

  /**
   How the operating system treats one write: whether the directory, the encoder and the random source do their
   part, what the temporary file holds on the way, whether it is written to the end, and whether it is renamed.
   */
  datatype Luck = Luck(prepared: bool, torn: seq<File>, written: bool, renamed: bool)

  /** Up to some point every state of the disk reads as the rows before, and from there on as the rows after. */
  ghost predicate Crashproof(passed: seq<Disk>, key: Key, before: seq<Row>, later: seq<Row>) {
    exists n: nat :: n <= |passed| && AllRead(passed[..n], key, before) && AllRead(passed[n..], key, later)
  }

  /** The search for the id, and the append when it is not there. */
  method Replaced(rows: seq<Row>, row: Row) returns (next: seq<Row>)
    ensures next == PutRow(rows, row)
  {
    next := rows;
    for i := 0 to |next|
      invariant next == rows
      invariant PutRow(rows, row) == rows[..i] + PutRow(rows[i..], row)
    {
      if next[i].item.id == row.item.id {
        next := next[i := row];
        assert rows[i..][1..] == rows[i + 1..];
        return;
      }
      assert rows[i..] == [rows[i]] + rows[i + 1..];
      assert rows[..i + 1] + PutRow(rows[i + 1..], row) == rows[..i] + ([rows[i]] + PutRow(rows[i + 1..], row));
    }
    next := next + [row];
  }

  class Vault {
    const key: Key
    var rows: seq<Row>
    /** The two files, as they are now. */
    var disk: Disk
    ghost const base: seq<Row>
    ghost var log: seq<Row>
    /** Every state of the files since the last call began. */
    ghost var passed: seq<Disk>

    ghost predicate Valid()
      reads this
    {
      && rows == Kept(base, log)
      && ReadBox(disk.box, key) == Ok(AllOnDisk(rows))
    }

    constructor Loaded(disk: Disk, key: Key, rows: seq<Row>)
      requires ReadBox(disk.box, key) == Ok(AllOnDisk(rows))
      ensures Valid() && this.rows == rows && this.key == key && this.disk == disk && log == [] && base == rows
    {
      this.disk, this.key, this.rows := disk, key, rows;
      base, log, passed := rows, [], [];
    }

    static method Open(disk: Disk, key: Key) returns (r: Result<Vault, Error>)
      ensures |key| != KEY_SIZE ==> r == Err(BadKey)
      ensures |key| == KEY_SIZE ==>
                match ReadBox(disk.box, key)
                case Err(e) => r == Err(e)
                case Ok(rows) => r.Ok? && fresh(r.value) && r.value.Valid() && r.value.rows == rows && r.value.key == key
    {
      if |key| != KEY_SIZE {
        return Err(BadKey);
      }
      if disk.box.Missing? {
        var v := new Vault.Loaded(disk, key, []);
        return Ok(v);
      }
      if disk.box.Unreadable? {
        return Err(Io);
      }
      var box := disk.box.box;
      if box.Garbage? || box.key != key || !box.ours {
        return Err(AuthFailed);
      }
      if box.version != VERSION {
        return Err(BadBox);
      }
      OnDiskTwice(box.rows);
      var v := new Vault.Loaded(disk, key, AllOnDisk(box.rows));
      return Ok(v);
    }

    method Material(id: Text) returns (m: Text)
      ensures m == Find(rows, id)
    {
      for i := 0 to |rows|
        invariant Find(rows, id) == Find(rows[i..], id)
      {
        if rows[i].item.id == id {
          return rows[i].material;
        }
        assert rows[i..][1..] == rows[i + 1..];
      }
      return [];
    }

    /**
     A put that fails leaves rows and box as they were; one that succeeds has the new rows in both. At whatever
     step it stops, opening the box gives the rows before it or the rows after it.
     */
    method Put(item: CachedItem, material: Text, nonce: nat, luck: Luck) returns (ok: bool)
      requires Valid()
      modifies this
      ensures Valid()
      ensures ok <==> item.id != [] && material != [] && luck.prepared && luck.written && luck.renamed
      ensures !ok ==> rows == old(rows) && log == old(log) && disk.box == old(disk.box)
      ensures ok ==> log == old(log) + [Row(item, material)] && rows == PutRow(old(rows), Row(item, material))
      ensures passed != [] && passed[0] == old(disk) && passed[|passed| - 1] == disk
      ensures Crashproof(passed, key, AllOnDisk(old(rows)), AllOnDisk(PutRow(old(rows), Row(item, material))))
    {
      hide AllOnDisk, PutRow, ReadBox, Kept, Crashproof;
      passed := [disk];
      NothingDone(passed, key, AllOnDisk(rows), AllOnDisk(PutRow(rows, Row(item, material))));
      if item.id == [] || |material| == 0 {
        return false;
      }
      var prev := rows;
      var next := Replaced(rows, Row(item, material));
      rows := next;
      log := log + [Row(item, material)];
      KeptGrows(base, old(log), Row(item, material));
      ok := Flush(nonce, luck, prev);
      if !ok {
        rows := prev;
        log := old(log);
      }
    }

    /** Writes the temporary file, which passes through any contents, and renames it over the box. */
    method Flush(nonce: nat, luck: Luck, ghost was: seq<Row>) returns (ok: bool)
      requires ReadBox(disk.box, key) == Ok(AllOnDisk(was)) && passed == [disk]
      modifies `disk, `passed
      ensures !ok ==> disk.box == old(disk.box)
      ensures ok ==> ReadBox(disk.box, key) == Ok(AllOnDisk(rows))
      ensures ok <==> luck.prepared && luck.written && luck.renamed
      ensures passed != [] && passed[0] == old(disk) && passed[|passed| - 1] == disk
      ensures Crashproof(passed, key, AllOnDisk(was), AllOnDisk(rows))
    {
      hide AllOnDisk;
      ghost var before, later := AllOnDisk(was), AllOnDisk(rows);
      NothingDone(passed, key, before, later);
      if !luck.prepared {
        return false;
      }
      var box := Sealed(key, nonce, true, VERSION, AllOnDisk(rows));
      for i := 0 to |luck.torn|
        invariant disk.box == old(disk.box) && passed != [] && passed[0] == old(disk)
        invariant passed[|passed| - 1] == disk && AllRead(passed, key, before)
      {
        disk := disk.(tmp := luck.torn[i]);
        passed := passed + [disk];
      }
      NothingDone(passed, key, before, later);
      if !luck.written {
        return false;
      }
      disk := disk.(tmp := Content(box));
      passed := passed + [disk];
      NothingDone(passed, key, before, later);
      if !luck.renamed {
        return false;
      }
      disk := Disk(disk.tmp, Missing);
      OnDiskTwice(rows);
      DoneAtLast(passed, disk, key, before, later);
      passed := passed + [disk];
      return true;
    }
  }

  ghost predicate AllRead(passed: seq<Disk>, key: Key, rows: seq<Row>) {
    forall i :: 0 <= i < |passed| ==> ReadBox(passed[i].box, key) == Ok(rows)
  }

  lemma NothingDone(passed: seq<Disk>, key: Key, before: seq<Row>, later: seq<Row>)
    requires AllRead(passed, key, before)
    ensures Crashproof(passed, key, before, later)
  {
    assert passed[..|passed|] == passed && passed[|passed|..] == [];
  }

  lemma DoneAtLast(passed: seq<Disk>, last: Disk, key: Key, before: seq<Row>, later: seq<Row>)
    requires AllRead(passed, key, before) && ReadBox(last.box, key) == Ok(later)
    ensures Crashproof(passed + [last], key, before, later)
  {
    var all := passed + [last];
    assert all[..|passed|] == passed && all[|passed|..] == [last];
  }
}
